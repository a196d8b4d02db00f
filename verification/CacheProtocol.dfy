/** Every interleaving of the cache's users: each critical section is one step,
    compiling, waiting and closing happen between steps. */
module CacheProtocol {
  import opened Text
  import opened ModuleCache

  /** Releasing: the lease's own released flag is set, the cache's release still
      to run. */
  datatype Phase = Held | Releasing | Released

  /** Whether the lease was instantiated, and what became of that. */
  datatype Instance = NoInstance | Starting | Running | Ended

  datatype Lease = Lease(entry: nat, phase: Phase, instance: Instance)

  /** `holders` are the acquirers that have found an entry and hold no lease yet;
      `closers` the calls to close a lease that have passed its check.
      `pending` are the modules a section decided to close and whose Close has
      not run; `closes` counts the ones that ran. `lost` is written by the step
      that closes the cache: the idle, compiled, unretired entries it did not
      find in the map. */
  datatype Sys = Sys(cache: Cache, holders: multiset<nat>, leases: seq<Lease>, closers: multiset<nat>, pending: multiset<nat>,
                     closes: multiset<nat>, lost: set<nat>)

  datatype Step =
    | LookUp(key: Key)
    | PublishCompiled(n: nat, ok: bool)
    | TakeLease(n: nat)
    | GiveUp(n: nat)
    | EvictKey(key: Key)
    | CloseCache
    | StartInstance(l: nat)
    | FinishStart(l: nat, ok: bool)
    | CheckClose(l: nat)
    | FinishClose(l: nat)
    | CloseInstance(l: nat)
    | ReleaseLease(l: nat)
    | CloseModule(n: nat)

  const INIT := Sys(EMPTY, multiset{}, [], multiset{}, multiset{}, multiset{}, {})

  ghost predicate Enabled(s: Sys, step: Step)
  {
    && Indexed(s.cache)
    && match step
       case LookUp(_) => true
       case PublishCompiled(n, _) => n < |s.cache.pool| && s.cache.pool[n].status == Compiling
       case TakeLease(n) => n in s.holders && n < |s.cache.pool| && s.cache.pool[n].status != Compiling
       case GiveUp(n) => n in s.holders
       case EvictKey(_) => true
       case CloseCache => true
       case StartInstance(l) => l < |s.leases| && s.leases[l].phase == Held && s.leases[l].instance == NoInstance
       case FinishStart(l, _) => l < |s.leases| && s.leases[l].instance == Starting
       case CheckClose(l) => l < |s.leases|
       case FinishClose(l) => l in s.closers && l < |s.leases|
       case CloseInstance(l) => l < |s.leases| && s.leases[l].instance == Running
       case ReleaseLease(l) => l < |s.leases| && s.leases[l].phase == Releasing && s.leases[l].entry < |s.cache.pool|
       case CloseModule(n) => n in s.pending
  }

  function Moved(leases: seq<Lease>, l: nat, phase: Phase): seq<Lease>
    requires l < |leases|
  {
    leases[l := leases[l].(phase := phase)]
  }

  function Changed(leases: seq<Lease>, l: nat, instance: Instance): seq<Lease>
    requires l < |leases|
  {
    leases[l := leases[l].(instance := instance)]
  }

  /** The released flag is set, unless it was set before. */
  function Yielded(leases: seq<Lease>, l: nat): seq<Lease>
    requires l < |leases|
  {
    if leases[l].phase == Held then Moved(leases, l, Releasing) else leases
  }

  ghost function Apply(s: Sys, step: Step): Sys
    requires Enabled(s, step)
  {
    match step
    case LookUp(key) =>
      var (c, found) := Lookup(s.cache, key);
      (match found
       case Refused => s
       case Lead(_) => s.(cache := c)
       case Wait(n) => s.(cache := c, holders := s.holders + multiset{n}))
    case PublishCompiled(n, ok) =>
      var (c, close) := Publish(s.cache, n, ok);
      s.(cache := c, holders := s.holders + multiset{n}, pending := s.pending + if close then multiset{n} else multiset{})
    case TakeLease(n) =>
      var (c, taken) := Take(s.cache, n);
      s.(cache := c, holders := s.holders - multiset{n},
         leases := s.leases + if taken == Leased then [Lease(n, Held, NoInstance)] else [])
    case GiveUp(n) => s.(holders := s.holders - multiset{n})
    case EvictKey(key) =>
      var (c, closers) := Evict(s.cache, key);
      s.(cache := c, pending := s.pending + multiset(closers))
    case CloseCache =>
      var (c, closers) := Close(s.cache);
      s.(cache := c, pending := s.pending + multiset(closers), lost := if s.cache.closed then s.lost else Stranded(s.cache))
    case StartInstance(l) => s.(leases := Changed(s.leases, l, Starting))
    case FinishStart(l, ok) => s.(leases := if ok then Changed(s.leases, l, Running) else Changed(Yielded(s.leases, l), l, Ended))
    case CheckClose(l) =>
      if s.leases[l].instance != NoInstance && s.leases[l].phase == Held then s else s.(closers := s.closers + multiset{l})
    case FinishClose(l) => s.(closers := s.closers - multiset{l}, leases := Yielded(s.leases, l))
    case CloseInstance(l) => s.(leases := Changed(Yielded(s.leases, l), l, Ended))
    case ReleaseLease(l) =>
      var n := s.leases[l].entry;
      var (c, freed) := Release(s.cache, n);
      s.(cache := c, leases := Moved(s.leases, l, Released),
         pending := s.pending + if freed == Free(true) then multiset{n} else multiset{})
    case CloseModule(n) => s.(pending := s.pending - multiset{n}, closes := s.closes + multiset{n})
  }

  /** Compiled, unused, still wanted, and out of the map's sight. */
  ghost function Stranded(c: Cache): set<nat>
  {
    set n | 0 <= n < |c.pool| && Idle(c.pool[n]) && !c.pool[n].evicted && n !in Listed(c.entries)
  }

  /** The state after a run, if every step of it was possible. */
  ghost function After(steps: seq<Step>): Option<Sys>
  {
    if steps == [] then Some(INIT)
    else match After(steps[..|steps| - 1])
      case None => None
      case Some(s) => if Enabled(s, steps[|steps| - 1]) then Some(Apply(s, steps[|steps| - 1])) else None
  }

  // ---------------------------------------------------------------- invariant

  /** Leases on n that have not gone through the cache's release. */
  ghost function Outstanding(leases: seq<Lease>, n: nat): nat
  {
    if leases == [] then 0
    else
      var last := leases[|leases| - 1];
      Outstanding(leases[..|leases| - 1], n) + if last.entry == n && last.phase != Released then 1 else 0
  }

  /** Close calls on n, decided or done. */
  ghost function Decided(s: Sys, n: nat): nat { s.pending[n] + s.closes[n] }

  ghost predicate EntryOk(s: Sys, n: nat)
    requires n < |s.cache.pool|
  {
    var e, closed := s.cache.pool[n], s.cache.closed;
    && e.refs == Outstanding(s.leases, n)
    && (e.refs > 0 ==> e.status == Compiled)
    && Decided(s, n) <= 1
    && (Decided(s, n) == 1 ==> Idle(e) && (e.evicted || closed))
    && (n in s.lost ==> closed && Idle(e) && !e.evicted && Decided(s, n) == 0)
    && (Idle(e) && (e.evicted || closed) ==> Decided(s, n) == 1 || n in s.lost)
  }

  ghost predicate Inv(s: Sys)
  {
    && MapOk(s.cache)
    && (forall n :: n in s.holders || n in s.pending || n in s.closes || n in s.lost ==> n < |s.cache.pool|)
    && (forall l :: 0 <= l < |s.leases| ==> s.leases[l].entry < |s.cache.pool|)
    && (forall l :: 0 <= l < |s.leases| && s.leases[l].instance == Ended ==> s.leases[l].phase != Held)
    && (forall n :: 0 <= n < |s.cache.pool| ==> EntryOk(s, n))
  }

  lemma {:induction false} OutstandingAppend(leases: seq<Lease>, lease: Lease, n: nat)
    ensures Outstanding(leases + [lease], n) ==
            Outstanding(leases, n) + if lease.entry == n && lease.phase != Released then 1 else 0
  {
    assert (leases + [lease])[..|leases|] == leases;
  }

  lemma {:induction false} OutstandingMoved(leases: seq<Lease>, l: nat, phase: Phase, n: nat)
    requires l < |leases| && leases[l].phase != Released
    ensures Outstanding(Moved(leases, l, phase), n) ==
            Outstanding(leases, n) - if leases[l].entry == n && phase == Released then 1 else 0
    decreases |leases|
  {
    var front := leases[..|leases| - 1];
    var moved := Moved(leases, l, phase);
    if l == |leases| - 1 {
      assert moved[..l] == front;
    } else {
      OutstandingMoved(front, l, phase, n);
      assert moved[..|leases| - 1] == Moved(front, l, phase);
    }
  }

  lemma {:induction false} NoneOutstanding(leases: seq<Lease>, n: nat)
    requires forall l :: 0 <= l < |leases| ==> leases[l].entry != n || leases[l].phase == Released
    ensures Outstanding(leases, n) == 0
  {
    if leases != [] { NoneOutstanding(leases[..|leases| - 1], n); }
  }

  lemma {:induction false} SomeOutstanding(leases: seq<Lease>, l: nat)
    requires l < |leases| && leases[l].phase != Released
    ensures Outstanding(leases, leases[l].entry) > 0
  {
    if l < |leases| - 1 { SomeOutstanding(leases[..|leases| - 1], l); }
  }

  lemma {:induction false} LookupKeeps(s: Sys, key: Key)
    requires Inv(s) && Enabled(s, LookUp(key))
    ensures Inv(Apply(s, LookUp(key)))
  {
    var t := Apply(s, LookUp(key));
    var m := |s.cache.pool|;
    if !s.cache.closed && key !in s.cache.entries { NoneOutstanding(s.leases, m); }
    forall n | 0 <= n < |t.cache.pool| ensures EntryOk(t, n) {
      if n < m { assert EntryOk(s, n); }
    }
  }

  lemma {:induction false} PublishKeeps(s: Sys, n: nat, ok: bool)
    requires Inv(s) && Enabled(s, PublishCompiled(n, ok))
    ensures Inv(Apply(s, PublishCompiled(n, ok)))
  {
    var t := Apply(s, PublishCompiled(n, ok));
    forall i | 0 <= i < |t.cache.pool| ensures EntryOk(t, i) { assert EntryOk(s, i); }
    forall k | k in t.cache.entries ensures t.cache.entries[k] == s.cache.entries[k] && k in s.cache.entries {}
  }

  lemma {:induction false} HoldersKeep(s: Sys, holders: multiset<nat>)
    requires Inv(s) && forall n :: n in holders ==> n < |s.cache.pool|
    ensures Inv(s.(holders := holders))
  {
    var t := s.(holders := holders);
    forall i | 0 <= i < |t.cache.pool| ensures EntryOk(t, i) { assert EntryOk(s, i); }
  }

  lemma {:induction false} LeasedKeeps(s: Sys, n: nat)
    requires Inv(s) && n < |s.cache.pool| && s.cache.pool[n].status != Compiling && Take(s.cache, n).1 == Leased
    ensures Inv(s.(cache := Take(s.cache, n).0, leases := s.leases + [Lease(n, Held, NoInstance)]))
  {
    var t := s.(cache := Take(s.cache, n).0, leases := s.leases + [Lease(n, Held, NoInstance)]);
    forall i | 0 <= i < |t.cache.pool| ensures EntryOk(t, i) {
      assert EntryOk(s, i);
      assert Decided(t, i) == Decided(s, i);
      OutstandingAppend(s.leases, Lease(n, Held, NoInstance), i);
    }
  }

  lemma {:induction false} TakeKeeps(s: Sys, n: nat)
    requires Inv(s) && Enabled(s, TakeLease(n))
    ensures Inv(Apply(s, TakeLease(n)))
  {
    hide Inv;
    var holders := s.holders - multiset{n};
    StillHolders(s, holders);
    HoldersKeep(s, holders);
    if Take(s.cache, n).1 == Leased {
      LeasedKeeps(s.(holders := holders), n);
    } else {
      assert s.leases + [] == s.leases;
    }
  }

  lemma {:induction false} StillHolders(s: Sys, holders: multiset<nat>)
    requires Inv(s) && holders <= s.holders
    ensures forall n :: n in holders ==> n < |s.cache.pool|
  {
  }

  lemma {:induction false} EvictKeeps(s: Sys, key: Key)
    requires Inv(s) && Enabled(s, EvictKey(key))
    ensures Inv(Apply(s, EvictKey(key)))
  {
    var t := Apply(s, EvictKey(key));
    forall i | 0 <= i < |t.cache.pool| ensures EntryOk(t, i) { assert EntryOk(s, i); }
    forall k | k in t.cache.entries ensures k in s.cache.entries && t.cache.entries[k] == s.cache.entries[k] && k != key {}
  }

  lemma {:induction false} CloseKeeps(s: Sys)
    requires Inv(s) && Enabled(s, CloseCache)
    ensures Inv(Apply(s, CloseCache))
  {
    var t := Apply(s, CloseCache);
    if !s.cache.closed {
      var ids := Listed(s.cache.entries);
      var closers := set i | i in ids && Idle(s.cache.pool[i]);
      forall i | 0 <= i < |t.cache.pool| ensures EntryOk(t, i) {
        assert EntryOk(s, i);
        assert t.cache.pool[i] == Retired(s.cache.pool[i], i in ids);
        assert t.pending[i] == s.pending[i] + if i in closers then 1 else 0;
        if i in ids { var k :| k in s.cache.entries && s.cache.entries[k] == i; }
      }
    } else {
      assert s.pending + multiset({}) == s.pending;
    }
  }

  lemma {:induction false} LeaseMoveKeeps(s: Sys, l: nat, phase: Phase)
    requires Inv(s) && l < |s.leases| && s.leases[l].phase != Released && phase == Releasing
    ensures Inv(s.(leases := Moved(s.leases, l, phase)))
  {
    var t := s.(leases := Moved(s.leases, l, phase));
    forall i | 0 <= i < |t.cache.pool| ensures EntryOk(t, i) {
      assert EntryOk(s, i);
      OutstandingMoved(s.leases, l, phase, i);
    }
  }

  lemma {:induction false} YieldKeeps(s: Sys, l: nat)
    requires Inv(s) && l < |s.leases|
    ensures Inv(s.(leases := Yielded(s.leases, l))) && Yielded(s.leases, l)[l].phase != Held
    ensures |Yielded(s.leases, l)| == |s.leases|
  {
    hide Inv;
    if s.leases[l].phase == Held { LeaseMoveKeeps(s, l, Releasing); }
  }

  lemma {:induction false} OutstandingChanged(leases: seq<Lease>, l: nat, instance: Instance, n: nat)
    requires l < |leases|
    ensures Outstanding(Changed(leases, l, instance), n) == Outstanding(leases, n)
    decreases |leases|
  {
    var front, changed := leases[..|leases| - 1], Changed(leases, l, instance);
    if l == |leases| - 1 {
      assert changed[..l] == front;
    } else {
      OutstandingChanged(front, l, instance, n);
      assert changed[..|leases| - 1] == Changed(front, l, instance);
    }
  }

  lemma {:induction false} ChangeKeeps(s: Sys, l: nat, instance: Instance)
    requires Inv(s) && l < |s.leases| && (instance == Ended ==> s.leases[l].phase != Held)
    ensures Inv(s.(leases := Changed(s.leases, l, instance)))
  {
    var t := s.(leases := Changed(s.leases, l, instance));
    forall i | 0 <= i < |t.cache.pool| ensures EntryOk(t, i) {
      assert EntryOk(s, i);
      OutstandingChanged(s.leases, l, instance, i);
    }
  }

  lemma {:induction false} EndKeeps(s: Sys, l: nat)
    requires Inv(s) && l < |s.leases|
    ensures Inv(s.(leases := Changed(Yielded(s.leases, l), l, Ended)))
  {
    hide Inv, Yielded;
    YieldKeeps(s, l);
    ChangeKeeps(s.(leases := Yielded(s.leases, l)), l, Ended);
  }

  lemma {:induction false} ClosersKeep(s: Sys, closers: multiset<nat>)
    requires Inv(s)
    ensures Inv(s.(closers := closers))
  {
    var t := s.(closers := closers);
    forall i | 0 <= i < |t.cache.pool| ensures EntryOk(t, i) { assert EntryOk(s, i); }
  }

  lemma {:induction false} ReleaseKeeps(s: Sys, l: nat)
    requires Inv(s) && Enabled(s, ReleaseLease(l))
    ensures Inv(Apply(s, ReleaseLease(l)))
    ensures Release(s.cache, s.leases[l].entry).1 != ReleasedTwice
  {
    var t, n := Apply(s, ReleaseLease(l)), s.leases[l].entry;
    SomeOutstanding(s.leases, l);
    assert EntryOk(s, n);
    forall i | 0 <= i < |t.cache.pool| ensures EntryOk(t, i) {
      assert EntryOk(s, i);
      OutstandingMoved(s.leases, l, Released, i);
    }
  }

  lemma {:induction false} CloseModuleKeeps(s: Sys, n: nat)
    requires Inv(s) && Enabled(s, CloseModule(n))
    ensures Inv(Apply(s, CloseModule(n)))
  {
    var t := Apply(s, CloseModule(n));
    forall i | 0 <= i < |t.cache.pool| ensures EntryOk(t, i) { assert EntryOk(s, i); }
  }

  lemma {:induction false} StepKeeps(s: Sys, step: Step)
    requires Inv(s) && Enabled(s, step)
    ensures Inv(Apply(s, step))
  {
    match step
    case LookUp(key) => LookupKeeps(s, key);
    case PublishCompiled(n, ok) => PublishKeeps(s, n, ok);
    case TakeLease(n) => TakeKeeps(s, n);
    case GiveUp(n) => StillHolders(s, s.holders - multiset{n}); HoldersKeep(s, s.holders - multiset{n});
    case EvictKey(key) => EvictKeeps(s, key);
    case CloseCache => CloseKeeps(s);
    case StartInstance(l) => ChangeKeeps(s, l, Starting);
    case FinishStart(l, ok) => if ok { ChangeKeeps(s, l, Running); } else { EndKeeps(s, l); }
    case CheckClose(l) => ClosersKeep(s, s.closers + multiset{l});
    case FinishClose(l) =>
      ClosersKeep(s, s.closers - multiset{l});
      YieldKeeps(s.(closers := s.closers - multiset{l}), l);
    case CloseInstance(l) => EndKeeps(s, l);
    case ReleaseLease(l) => ReleaseKeeps(s, l);
    case CloseModule(n) => CloseModuleKeeps(s, n);
  }

  lemma {:induction false} RunKeeps(steps: seq<Step>)
    requires After(steps).Some?
    ensures Inv(After(steps).value)
  {
    if steps != [] {
      var front := steps[..|steps| - 1];
      RunKeeps(front);
      StepKeeps(After(front).value, steps[|steps| - 1]);
    }
  }

  // ------------------------------------------------------------------ theorems

  /** In every run: the reference count is the number of outstanding leases, no
      module is closed while leased, none is closed twice. */
  lemma {:induction false} Safety(steps: seq<Step>)
    requires After(steps).Some?
    ensures var s := After(steps).value;
      && (forall n :: 0 <= n < |s.cache.pool| ==>
            s.cache.pool[n].refs == Outstanding(s.leases, n) && s.closes[n] <= 1)
      && (forall l :: 0 <= l < |s.leases| && s.leases[l].phase != Released ==>
            var n := s.leases[l].entry;
            n < |s.cache.pool| && s.cache.pool[n].status == Compiled && s.closes[n] == 0 && s.pending[n] == 0)
  {
    RunKeeps(steps);
    var s := After(steps).value;
    forall n | 0 <= n < |s.cache.pool| ensures s.cache.pool[n].refs == Outstanding(s.leases, n) && s.closes[n] <= 1 {
      assert EntryOk(s, n);
    }
    forall l | 0 <= l < |s.leases| && s.leases[l].phase != Released
      ensures var n := s.leases[l].entry;
              n < |s.cache.pool| && s.cache.pool[n].status == Compiled && s.closes[n] == 0 && s.pending[n] == 0
    {
      SomeOutstanding(s.leases, l);
      assert EntryOk(s, s.leases[l].entry);
    }
  }

  // ------------------------------------------------------- instances and leases

  /** The leases that are being instantiated or have an instance: StartInstance has
      begun, and no failed FinishStart and no CloseInstance has ended it. */
  function Instances(steps: seq<Step>): set<nat>
  {
    if steps == [] then {}
    else
      var before, last := Instances(steps[..|steps| - 1]), steps[|steps| - 1];
      if last.StartInstance? then before + {last.l}
      else if last.CloseInstance? || (last.FinishStart? && !last.ok) then before - {last.l}
      else before
  }

  ghost predicate IsLive(s: Sys, l: nat) { l < |s.leases| && s.leases[l].instance in {Starting, Running} }

  /** What each step does to the leases. */
  lemma {:induction false} LeasesAfter(s: Sys, step: Step)
    requires Enabled(s, step)
    ensures Apply(s, step).leases ==
            match step
            case TakeLease(n) => if Take(s.cache, n).1 == Leased then s.leases + [Lease(n, Held, NoInstance)] else s.leases
            case StartInstance(l) => Changed(s.leases, l, Starting)
            case FinishStart(l, ok) => if ok then Changed(s.leases, l, Running) else Changed(Yielded(s.leases, l), l, Ended)
            case FinishClose(l) => Yielded(s.leases, l)
            case CloseInstance(l) => Changed(Yielded(s.leases, l), l, Ended)
            case ReleaseLease(l) => Moved(s.leases, l, Released)
            case _ => s.leases
  {
    hide Lookup, Publish, Take, Evict, Release, Close, Stranded, Indexed, Moved, Changed, Yielded;
    assert s.leases + [] == s.leases;
  }

  lemma {:induction false} LiveStep(s: Sys, step: Step, l: nat)
    requires Enabled(s, step)
    ensures IsLive(Apply(s, step), l) <==>
              (step == StartInstance(l)) || (IsLive(s, l) && step != CloseInstance(l) && step != FinishStart(l, false))
  {
    LeasesAfter(s, step);
    hide Apply, Take, Indexed;
  }

  lemma {:induction false} InstancesLive(steps: seq<Step>, l: nat)
    requires After(steps).Some?
    ensures l in Instances(steps) <==> IsLive(After(steps).value, l)
  {
    hide Apply, Enabled, IsLive;
    if steps == [] {
      NobodyLives(l);
    } else {
      var front := steps[..|steps| - 1];
      InstancesLive(front, l);
      LiveStep(After(front).value, steps[|steps| - 1], l);
    }
  }

  lemma {:induction false} NobodyLives(l: nat)
    ensures !IsLive(INIT, l)
  {
  }

  /** The step gives the lease up, if that has not been done. */
  predicate GivesUp(step: Step, l: nat) { step == FinishClose(l) || step == CloseInstance(l) || step == FinishStart(l, false) }

  predicate GivenUp(steps: seq<Step>, l: nat)
  {
    steps != [] && (GivenUp(steps[..|steps| - 1], l) || GivesUp(steps[|steps| - 1], l))
  }

  /** A call that had found the lease unused was the first to give it up, although
      it was being instantiated, or had an instance, by then. */
  predicate Overlaps(steps: seq<Step>, l: nat)
  {
    steps != [] &&
    var front := steps[..|steps| - 1];
    Overlaps(front, l) || (steps[|steps| - 1] == FinishClose(l) && l in Instances(front) && !GivenUp(front, l))
  }

  ghost predicate HeldIn(leases: seq<Lease>, l: nat) { l < |leases| && leases[l].phase == Held }

  ghost predicate IsHeld(s: Sys, l: nat) { HeldIn(s.leases, l) }

  lemma {:induction false} StepsOnLeases(s: Sys, step: Step, l: nat)
    requires Enabled(s, step)
    ensures GivesUp(step, l) || step == StartInstance(l) ==> l < |s.leases|
    ensures step.StartInstance? || step.FinishStart? || step.FinishClose? || step.CloseInstance? || step.ReleaseLease? ==> step.l < |s.leases|
    ensures step.ReleaseLease? ==> s.leases[step.l].phase == Releasing
  {
    hide Indexed;
  }

  lemma {:induction false} YieldedHeld(leases: seq<Lease>, j: nat, l: nat)
    requires j < |leases|
    ensures |Yielded(leases, j)| == |leases| && (HeldIn(Yielded(leases, j), l) <==> HeldIn(leases, l) && l != j)
  {
  }

  lemma {:induction false} ChangedHeld(leases: seq<Lease>, j: nat, instance: Instance, l: nat)
    requires j < |leases|
    ensures |Changed(leases, j, instance)| == |leases| && (HeldIn(Changed(leases, j, instance), l) <==> HeldIn(leases, l))
  {
  }

  lemma {:induction false} ReleasedHeld(leases: seq<Lease>, j: nat, l: nat)
    requires j < |leases| && leases[j].phase == Releasing
    ensures |Moved(leases, j, Released)| == |leases| && (HeldIn(Moved(leases, j, Released), l) <==> HeldIn(leases, l))
  {
  }

  lemma {:induction false} AppendedHeld(leases: seq<Lease>, l: nat)
    ensures forall lease :: l < |leases| ==> (HeldIn(leases + [lease], l) <==> HeldIn(leases, l))
  {
  }

  predicate Yields(step: Step) { step.FinishClose? || step.CloseInstance? || (step.FinishStart? && !step.ok) }

  lemma {:induction false} YieldsHeld(s: Sys, step: Step, l: nat)
    requires Enabled(s, step) && Yields(step)
    ensures IsHeld(Apply(s, step), l) <==> IsHeld(s, l) && step.l != l
  {
    StepsOnLeases(s, step, l);
    LeasesAfter(s, step);
    hide Apply, Enabled, Changed, Yielded, HeldIn;
    YieldedHeld(s.leases, step.l, l);
    EndedHeld(s.leases, step.l, l);
  }

  lemma {:induction false} KeepsHeld(s: Sys, step: Step, l: nat)
    requires Enabled(s, step) && !Yields(step) && l < |s.leases|
    ensures IsHeld(Apply(s, step), l) <==> IsHeld(s, l)
  {
    StepsOnLeases(s, step, l);
    LeasesAfter(s, step);
    hide Apply, Enabled, Changed, Moved, HeldIn, Take;
    if step.StartInstance? {
      ChangedHeld(s.leases, step.l, Starting, l);
    } else if step.FinishStart? {
      ChangedHeld(s.leases, step.l, Running, l);
    } else if step.ReleaseLease? {
      ReleasedHeld(s.leases, step.l, l);
    } else {
      AppendedHeld(s.leases, l);
    }
  }

  lemma {:induction false} HeldStep(s: Sys, step: Step, l: nat)
    requires Enabled(s, step) && l < |s.leases|
    ensures IsHeld(Apply(s, step), l) <==> IsHeld(s, l) && !GivesUp(step, l)
  {
    hide Apply, Enabled, IsHeld;
    if Yields(step) { YieldsHeld(s, step, l); } else { KeepsHeld(s, step, l); }
  }

  lemma {:induction false} EndedHeld(leases: seq<Lease>, j: nat, l: nat)
    requires j < |leases|
    ensures |Yielded(leases, j)| == |leases|
    ensures HeldIn(Changed(Yielded(leases, j), j, Ended), l) <==> HeldIn(leases, l) && l != j
  {
    hide Changed, HeldIn, Yielded;
    YieldedHeld(leases, j, l);
    ChangedHeld(Yielded(leases, j), j, Ended, l);
  }

  lemma {:induction false} NeverFewer(s: Sys, step: Step)
    requires Enabled(s, step)
    ensures |s.leases| <= |Apply(s, step).leases|
  {
    StepsOnLeases(s, step, 0);
    LeasesAfter(s, step);
    hide Apply, Take, Indexed, Enabled;
  }

  /** A new lease is held; before that no step concerns it. */
  lemma {:induction false} NewLease(s: Sys, step: Step, l: nat)
    requires Enabled(s, step) && l >= |s.leases|
    ensures l < |Apply(s, step).leases| ==> IsHeld(Apply(s, step), l)
    ensures !GivesUp(step, l) && step != StartInstance(l)
  {
    StepsOnLeases(s, step, l);
    LeasesAfter(s, step);
    hide Apply, Take, Indexed, Enabled;
  }

  lemma {:induction false} StartsHeld(s: Sys, l: nat)
    requires Enabled(s, StartInstance(l))
    ensures IsHeld(s, l)
  {
  }

  /** What a run has done to a lease, and what state it is in. */
  ghost predicate Traced(steps: seq<Step>, s: Sys, l: nat)
  {
    && (l >= |s.leases| ==> !GivenUp(steps, l) && !Overlaps(steps, l) && !IsLive(s, l))
    && (l < |s.leases| ==> (IsHeld(s, l) <==> !GivenUp(steps, l)))
    && (IsLive(s, l) ==> (GivenUp(steps, l) <==> Overlaps(steps, l))) && (Overlaps(steps, l) ==> GivenUp(steps, l))
  }

  lemma {:induction false} TracedStep(front: seq<Step>, s: Sys, step: Step, l: nat)
    requires Enabled(s, step) && Traced(front, s, l) && (l in Instances(front) <==> IsLive(s, l))
    ensures Traced(front + [step], Apply(s, step), l)
  {
    hide Apply, Enabled, IsHeld, IsLive, Instances;
    var steps := front + [step];
    assert steps[..|front|] == front && steps[|front|] == step;
    assert GivenUp(steps, l) <==> GivenUp(front, l) || GivesUp(step, l);
    assert Overlaps(steps, l) <==> Overlaps(front, l) || (step == FinishClose(l) && l in Instances(front) && !GivenUp(front, l));
    NeverFewer(s, step);
    if l < |s.leases| { HeldStep(s, step, l); } else { NewLease(s, step, l); }
    if step == StartInstance(l) { StartsHeld(s, l); }
    LiveStep(s, step, l);
    NotLive(s, l);
    NotLive(Apply(s, step), l);
  }

  lemma {:induction false} NotLive(s: Sys, l: nat)
    ensures l >= |s.leases| ==> !IsLive(s, l) && !IsHeld(s, l)
  {
  }

  lemma {:induction false} RunTraced(steps: seq<Step>, l: nat)
    requires After(steps).Some?
    ensures Traced(steps, After(steps).value, l)
  {
    hide Apply, Enabled, Traced;
    if steps == [] {
      NothingTraced(l);
    } else {
      var m := |steps| - 1;
      RunTraced(steps[..m], l);
      InstancesLive(steps[..m], l);
      TracedStep(steps[..m], After(steps[..m]).value, steps[m], l);
      assert steps[..m] + [steps[m]] == steps;
    }
  }

  lemma {:induction false} NothingTraced(l: nat)
    ensures Traced([], INIT, l)
  {
  }

  /** The lease of an instance is held exactly as long as no call that closes the
      unused lease has overlapped with its instantiation. */
  lemma {:induction false} InstancesHoldExactly(steps: seq<Step>, l: nat)
    requires After(steps).Some? && l in Instances(steps)
    ensures l < |After(steps).value.leases|
    ensures After(steps).value.leases[l].phase == Held <==> !Overlaps(steps, l)
  {
    hide After, Instances, Overlaps, GivenUp;
    InstancesLive(steps, l);
    RunTraced(steps, l);
  }

  /** In a run in which no call that closes an unused lease overlaps with its
      instantiation, a module with an instance is compiled and leased, and no Close
      of it is decided, let alone done. */
  lemma {:induction false} InstancesAreSafe(steps: seq<Step>, l: nat)
    requires After(steps).Some? && l in Instances(steps) && !Overlaps(steps, l)
    ensures var s := After(steps).value;
            && l < |s.leases| && s.leases[l].entry < |s.cache.pool|
            && var n := s.leases[l].entry;
               s.cache.pool[n].status == Compiled && s.cache.pool[n].refs > 0 && s.pending[n] == 0 && s.closes[n] == 0
  {
    hide Overlaps, Instances, After;
    InstancesHoldExactly(steps, l);
    RunKeeps(steps);
    Safety(steps);
    SomeOutstanding(After(steps).value.leases, l);
  }

  /** Only CloseInstance, or such a call, ends it: until then a call to close the
      lease is refused, the lease cannot be released, and no second instance can be
      made of it. */
  lemma {:induction false} LeaseIsGuarded(steps: seq<Step>, l: nat)
    requires After(steps).Some? && l in Instances(steps) && !Overlaps(steps, l)
    ensures var s := After(steps).value;
            && Enabled(s, CheckClose(l)) && Apply(s, CheckClose(l)) == s
            && !Enabled(s, ReleaseLease(l)) && !Enabled(s, StartInstance(l))
            && (Enabled(s, CloseInstance(l)) || Enabled(s, FinishStart(l, true)))
  {
    hide Overlaps, Instances, After;
    InstancesHoldExactly(steps, l);
    InstancesLive(steps, l);
    IndexedInRun(steps);
  }

  lemma {:induction false} IndexedInRun(steps: seq<Step>)
    requires After(steps).Some?
    ensures Indexed(After(steps).value.cache)
  {
    RunKeeps(steps);
  }

  ghost predicate IsUsed(s: Sys, l: nat) { l < |s.leases| && s.leases[l].instance != NoInstance }

  lemma {:induction false} UsedStep(s: Sys, step: Step, l: nat)
    requires Enabled(s, step)
    ensures IsUsed(s, l) || step == StartInstance(l) ==> IsUsed(Apply(s, step), l)
    ensures step == StartInstance(l) ==> !IsUsed(s, l)
  {
    StepsOnLeases(s, step, l);
    LeasesAfter(s, step);
    hide Apply, Take, Indexed;
  }

  lemma {:induction false} UsedAfter(steps: seq<Step>, j: nat)
    requires After(steps).Some? && j < |steps| && steps[j].StartInstance?
    ensures IsUsed(After(steps).value, steps[j].l)
  {
    hide Apply, Enabled, IsUsed;
    var n := |steps| - 1;
    if j < n { UsedAfter(steps[..n], j); }
    UsedStep(After(steps[..n]).value, steps[n], steps[j].l);
  }

  lemma {:induction false} RunPrefix(steps: seq<Step>, k: nat)
    requires After(steps).Some? && k <= |steps|
    ensures After(steps[..k]).Some? && (k < |steps| ==> Enabled(After(steps[..k]).value, steps[k]))
  {
    hide Apply, Enabled;
    if k == |steps| {
      assert steps[..k] == steps;
    } else if k < |steps| - 1 {
      RunPrefix(steps[..|steps| - 1], k);
      assert steps[..|steps| - 1][..k] == steps[..k];
    }
  }

  /** A lease is for a single use: in no run is one instantiated twice, whether the
      first time succeeded or not. */
  lemma {:induction false} SingleUse(steps: seq<Step>, j: nat, k: nat)
    requires After(steps).Some? && j < k < |steps| && steps[j].StartInstance? && steps[k].StartInstance?
    ensures steps[j].l != steps[k].l
  {
    hide After, Apply, Enabled, IsUsed;
    RunPrefix(steps, k);
    UsedAfter(steps[..k], j);
    UsedStep(After(steps[..k]).value, steps[k], steps[j].l);
  }

  /** In every run every lease that is out can be given back: an unused one by
      closing it, one that starts by failing, an instance by closing that, and each
      by the release that follows. */
  lemma {:induction false} LeasesCanEnd(steps: seq<Step>, l: nat) returns (more: seq<Step>)
    requires After(steps).Some? && l < |After(steps).value.leases| && After(steps).value.leases[l].phase != Released
    ensures |more| <= 3 && forall step :: step in more ==>
              step in {CheckClose(l), FinishClose(l), FinishStart(l, false), CloseInstance(l), ReleaseLease(l)}
    ensures After(steps + more).Some? && l < |After(steps + more).value.leases| && After(steps + more).value.leases[l].phase == Released
  {
    hide After, Release, Inv;
    var s := After(steps).value;
    RunKeeps(steps);
    if s.leases[l].phase == Held { NotEndedYet(s, l); }
    IndexedInRun(steps);
    if s.leases[l].phase == Releasing {
      more := [ReleaseLease(l)];
      Releases(steps, s, l);
    } else if s.leases[l].instance == NoInstance {
      var t := Apply(s, CheckClose(l));
      RunStep(steps, s, CheckClose(l), t);
      GivesBack(steps + [CheckClose(l)], t, l, FinishClose(l));
      more := [CheckClose(l), FinishClose(l), ReleaseLease(l)];
      assert steps + [CheckClose(l)] + [FinishClose(l), ReleaseLease(l)] == steps + more;
    } else {
      var first := if s.leases[l].instance == Starting then FinishStart(l, false) else CloseInstance(l);
      GivesBack(steps, s, l, first);
      more := [first, ReleaseLease(l)];
    }
  }

  lemma {:induction false} NotEndedYet(s: Sys, l: nat)
    requires Inv(s) && l < |s.leases| && s.leases[l].phase == Held
    ensures s.leases[l].instance != Ended
  {
  }

  lemma {:induction false} GivesBack(steps: seq<Step>, s: Sys, l: nat, first: Step)
    requires After(steps) == Some(s) && l < |s.leases| && s.leases[l].phase == Held && Enabled(s, first)
    requires first == FinishClose(l) || first == FinishStart(l, false) || first == CloseInstance(l)
    ensures var t := After(steps + [first, ReleaseLease(l)]);
            t.Some? && l < |t.value.leases| && t.value.leases[l].phase == Released
  {
    hide After, Release;
    var t := Apply(s, first);
    RunStep(steps, s, first, t);
    Releases(steps + [first], t, l);
    assert steps + [first] + [ReleaseLease(l)] == steps + [first, ReleaseLease(l)];
  }

  lemma {:induction false} Releases(steps: seq<Step>, s: Sys, l: nat)
    requires After(steps) == Some(s) && l < |s.leases| && s.leases[l].phase == Releasing
    ensures var t := After(steps + [ReleaseLease(l)]);
            t.Some? && l < |t.value.leases| && t.value.leases[l].phase == Released
  {
    hide After, Release;
    RunKeeps(steps);
    IndexedInRun(steps);
    RunStep(steps, s, ReleaseLease(l), Apply(s, ReleaseLease(l)));
  }

  /** The error for a second release is never returned. */
  lemma {:induction false} NeverReleasedTwice(steps: seq<Step>, l: nat)
    requires After(steps).Some? && Enabled(After(steps).value, ReleaseLease(l))
    ensures Release(After(steps).value.cache, After(steps).value.leases[l].entry).1 != ReleasedTwice
  {
    RunKeeps(steps);
    ReleaseKeeps(After(steps).value, l);
  }

  /** The cache is closed and everybody is done. */
  ghost predicate Quiescent(s: Sys)
  {
    && s.cache.closed && s.pending == multiset{}
    && (forall l :: 0 <= l < |s.leases| ==> s.leases[l].phase == Released)
    && (forall n :: 0 <= n < |s.cache.pool| ==> s.cache.pool[n].status != Compiling)
  }

  /** Every module that was compiled was closed, exactly once; nothing else was. */
  ghost predicate NothingLeaks(s: Sys)
  {
    forall n :: 0 <= n < |s.cache.pool| ==> s.closes[n] == if s.cache.pool[n].status == Compiled then 1 else 0
  }

  /** The state in which the cache was closed. */
  ghost predicate ClosedIn(steps: seq<Step>, k: nat)
  {
    k < |steps| && steps[k].CloseCache? && After(steps[..k]).Some? && !After(steps[..k]).value.cache.closed
  }

  /** Of the cache's sections only Close sets the closed flag. */
  lemma {:induction false} SectionsDoNotClose(c: Cache, key: Key, n: nat, ok: bool)
    requires Indexed(c)
    ensures Lookup(c, key).0.closed == c.closed && Evict(c, key).0.closed == c.closed
    ensures n < |c.pool| ==>
      Publish(c, n, ok).0.closed == c.closed && Take(c, n).0.closed == c.closed && Release(c, n).0.closed == c.closed
  {
  }

  /** Steps that leave the cache alone. */
  predicate IsAside(step: Step)
  {
    step.GiveUp? || step.StartInstance? || step.FinishStart? || step.CheckClose? || step.FinishClose? || step.CloseInstance? || step.CloseModule?
  }

  lemma {:induction false} AsideKeepsCache(s: Sys, step: Step)
    requires Enabled(s, step) && IsAside(step)
    ensures Apply(s, step).cache == s.cache && Apply(s, step).lost == s.lost
  {
    hide Lookup, Publish, Take, Evict, Release, Moved, Changed, Yielded, Indexed, Close, Stranded;
  }

  lemma {:induction false} OthersDoNotClose(s: Sys, step: Step)
    requires Enabled(s, step) && !step.CloseCache?
    ensures Apply(s, step).cache.closed == s.cache.closed && Apply(s, step).lost == s.lost
  {
    if IsAside(step) { AsideKeepsCache(s, step); } else { SectionKeepsOpen(s, step); }
  }

  lemma {:induction false} SectionKeepsOpen(s: Sys, step: Step)
    requires Enabled(s, step) && !step.CloseCache? && !IsAside(step)
    ensures Apply(s, step).cache.closed == s.cache.closed && Apply(s, step).lost == s.lost
  {
    hide Lookup, Publish, Take, Evict, Release, Moved, Changed, Yielded, Indexed, Close, Stranded;
    var none := Key(0, "", "");
    match step
    case LookUp(key) => SectionsDoNotClose(s.cache, key, 0, false);
    case PublishCompiled(n, ok) => SectionsDoNotClose(s.cache, none, n, ok);
    case TakeLease(n) => SectionsDoNotClose(s.cache, none, n, false);
    case EvictKey(key) => SectionsDoNotClose(s.cache, key, 0, false);
    case ReleaseLease(l) => SectionsDoNotClose(s.cache, none, s.leases[l].entry, false);
  }

  lemma {:induction false} ClosesByClosing(s: Sys, step: Step)
    requires Enabled(s, step)
    ensures s.cache.closed ==> Apply(s, step).cache.closed && Apply(s, step).lost == s.lost
    ensures !s.cache.closed && Apply(s, step).cache.closed ==> step.CloseCache? && Apply(s, step).lost == Stranded(s.cache)
  {
    hide Stranded, Listed, RetireAll;
    if !step.CloseCache? { OthersDoNotClose(s, step); }
  }

  lemma {:induction false} ClosedSomewhere(steps: seq<Step>) returns (k: nat)
    requires After(steps).Some? && After(steps).value.cache.closed
    ensures ClosedIn(steps, k) && After(steps).value.lost == Stranded(After(steps[..k]).value.cache)
  {
    hide Stranded, Apply, Enabled;
    var n := |steps| - 1;
    var front := steps[..n];
    ClosesByClosing(After(front).value, steps[n]);
    if After(front).value.cache.closed {
      k := ClosedSomewhere(front);
      assert front[..k] == steps[..k] && front[k] == steps[k];
    } else {
      k := n;
    }
  }

  /** When nobody is left, what leaked is what the closing step could not see. */
  lemma {:induction false} LeaksAreLost(steps: seq<Step>, n: nat)
    requires After(steps).Some? && Quiescent(After(steps).value) && n < |After(steps).value.cache.pool|
    ensures var s := After(steps).value;
            s.closes[n] == if s.cache.pool[n].status == Compiled && n !in s.lost then 1 else 0
  {
    RunKeeps(steps);
    var s := After(steps).value;
    assert EntryOk(s, n);
    NoneOutstanding(s.leases, n);
  }

  /** No leak, if and only if no entry was stranded when Close ran. */
  lemma {:induction false} NoLeakExactly(steps: seq<Step>) returns (k: nat)
    requires After(steps).Some? && Quiescent(After(steps).value)
    ensures ClosedIn(steps, k)
    ensures NothingLeaks(After(steps).value) <==> Stranded(After(steps[..k]).value.cache) == {}
  {
    RunKeeps(steps);
    var s := After(steps).value;
    k := ClosedSomewhere(steps);
    forall n | 0 <= n < |s.cache.pool|
      ensures s.closes[n] == if s.cache.pool[n].status == Compiled && n !in s.lost then 1 else 0
    {
      LeaksAreLost(steps, n);
    }
    if s.lost != {} {
      var n :| n in s.lost;
      assert EntryOk(s, n);
    }
  }

  // ------------------------------------------------- which entries are stranded

  /** The step is the publication of another entry, and takes n off the map. */
  ghost predicate Drops(s: Sys, step: Step, n: nat)
  {
    && Enabled(s, step) && step.PublishCompiled? && step.n != n
    && n in Listed(s.cache.entries) && n !in Listed(Apply(s, step).cache.entries)
  }

  ghost predicate DropsAt(steps: seq<Step>, j: nat, n: nat)
  {
    j < |steps| && After(steps[..j]).Some? && Drops(After(steps[..j]).value, steps[j], n)
  }

  /** Somewhere in the run the publication of another entry took n off the map. */
  ghost predicate Dropped(steps: seq<Step>, n: nat) { exists j: nat :: DropsAt(steps, j, n) }

  lemma {:induction false} DroppedMore(steps: seq<Step>, n: nat)
    requires steps != [] && After(steps[..|steps| - 1]).Some?
    ensures var m := |steps| - 1;
            Dropped(steps, n) <==> Dropped(steps[..m], n) || Drops(After(steps[..m]).value, steps[m], n)
  {
    hide Drops, After;
    var m := |steps| - 1;
    assert forall j :: 0 <= j < m ==> steps[..m][..j] == steps[..j] && steps[..m][j] == steps[j];
    assert forall j: nat :: j < m ==> (DropsAt(steps, j, n) <==> DropsAt(steps[..m], j, n));
    assert DropsAt(steps, m, n) <==> Drops(After(steps[..m]).value, steps[m], n);
    if Dropped(steps[..m], n) {
      var j: nat :| DropsAt(steps[..m], j, n);
      assert DropsAt(steps, j, n);
    }
    if Dropped(steps, n) {
      var j: nat :| DropsAt(steps, j, n);
      assert j < m ==> DropsAt(steps[..m], j, n);
    }
  }

  /** Neither in the map nor evicted. */
  ghost predicate OffMap(c: Cache, n: nat) { n < |c.pool| && !c.pool[n].evicted && n !in Listed(c.entries) }

  /** The same, and its compilation did not fail. */
  ghost predicate Missing(c: Cache, n: nat) { OffMap(c, n) && c.pool[n].status != Failed }

  lemma {:induction false} LookupMisses(c: Cache, key: Key, n: nat)
    requires MapOk(c)
    ensures Missing(Lookup(c, key).0, n) ==> Missing(c, n)
    ensures OffMap(c, n) ==> OffMap(Lookup(c, key).0, n)
  {
    var d := Lookup(c, key).0;
    forall k | k in c.entries ensures k in d.entries && d.entries[k] == c.entries[k] {}
    if key in d.entries { assert d.entries[key] in Listed(d.entries); }
  }

  lemma {:induction false} PublishMisses(c: Cache, m: nat, ok: bool, n: nat)
    requires MapOk(c) && m < |c.pool| && c.pool[m].status == Compiling
    ensures Missing(Publish(c, m, ok).0, n) ==> Missing(c, n) || (n in Listed(c.entries) && n != m)
    ensures OffMap(c, n) ==> OffMap(Publish(c, m, ok).0, n)
    ensures n in Listed(c.entries) && n !in Listed(Publish(c, m, ok).0.entries) ==> OffMap(Publish(c, m, ok).0, n)
  {
    var d := Publish(c, m, ok).0;
    forall k | k in d.entries ensures k in c.entries && d.entries[k] == c.entries[k] {}
    if n in Listed(c.entries) {
      var k :| k in c.entries && c.entries[k] == n;
      assert k in d.entries ==> d.entries[k] in Listed(d.entries);
    }
  }

  lemma {:induction false} EvictMisses(c: Cache, key: Key, n: nat)
    requires MapOk(c)
    ensures Missing(Evict(c, key).0, n) ==> Missing(c, n)
    ensures OffMap(c, n) ==> OffMap(Evict(c, key).0, n)
  {
    var d := Evict(c, key).0;
    forall k | k in d.entries ensures k in c.entries && d.entries[k] == c.entries[k] {}
    forall k | k in c.entries && k != key ensures c.entries[k] in Listed(d.entries) { assert k in d.entries && d.entries[k] == c.entries[k]; }
    if key in c.entries { assert c.entries[key] in Listed(c.entries); }
  }

  /** Sections that only count leases. */
  lemma {:induction false} CountingMisses(c: Cache, m: nat, n: nat)
    requires m < |c.pool|
    ensures Missing(Take(c, m).0, n) <==> Missing(c, n)
    ensures Missing(Release(c, m).0, n) <==> Missing(c, n)
    ensures OffMap(Take(c, m).0, n) <==> OffMap(c, n)
    ensures OffMap(Release(c, m).0, n) <==> OffMap(c, n)
  {
    hide Listed;
  }

  /** Before the cache is closed, only another entry's publication makes an entry
      go missing, and it never comes back. */
  lemma {:induction false} MissingStep(s: Sys, step: Step, n: nat)
    requires Inv(s) && Enabled(s, step) && !Apply(s, step).cache.closed && !s.cache.closed
    ensures Missing(Apply(s, step).cache, n) ==> Missing(s.cache, n) || Drops(s, step, n)
    ensures OffMap(s.cache, n) || Drops(s, step, n) ==> OffMap(Apply(s, step).cache, n)
  {
    hide Lookup, Publish, Take, Evict, Release, Moved, Changed, Yielded, Indexed, Listed, Missing, EntryOk;
    match step
    case LookUp(key) => LookupMisses(s.cache, key, n);
    case PublishCompiled(m, ok) =>
      PublishMisses(s.cache, m, ok, n);
      MissingMeans(Apply(s, step).cache, n);
    case TakeLease(m) => CountingMisses(s.cache, m, n);
    case EvictKey(key) => EvictMisses(s.cache, key, n);
    case ReleaseLease(l) => CountingMisses(s.cache, s.leases[l].entry, n);
    case _ =>
  }

  lemma {:induction false} MissingMeans(c: Cache, n: nat)
    ensures Missing(c, n) ==> n < |c.pool| && n !in Listed(c.entries)
  {
  }

  lemma {:induction false} DroppedIsOffMap(steps: seq<Step>, n: nat)
    requires After(steps).Some? && !After(steps).value.cache.closed
    ensures Missing(After(steps).value.cache, n) ==> Dropped(steps, n)
    ensures Dropped(steps, n) ==> OffMap(After(steps).value.cache, n)
  {
    hide Dropped, Missing, OffMap, Drops, Apply, Enabled;
    if steps == [] {
      NoneMissing(n);
    } else {
      var m := |steps| - 1;
      var front := steps[..m];
      RunKeeps(front);
      ClosesByClosing(After(front).value, steps[m]);
      DroppedIsOffMap(front, n);
      DroppedMore(steps, n);
      MissingStep(After(front).value, steps[m], n);
    }
  }

  lemma {:induction false} NoneMissing(n: nat)
    ensures !Missing(INIT.cache, n) && !Dropped([], n)
  {
  }

  /** A module leaks exactly if the publication of another entry took its entry off
      the map, and it was compiled and not in use when the cache was closed. */
  lemma {:induction false} LeaksExactly(steps: seq<Step>, n: nat) returns (k: nat)
    requires After(steps).Some? && Quiescent(After(steps).value) && n < |After(steps).value.cache.pool|
    ensures ClosedIn(steps, k)
    ensures var s, c := After(steps).value, After(steps[..k]).value.cache;
            s.closes[n] == 0 && s.cache.pool[n].status == Compiled <==> Dropped(steps[..k], n) && n < |c.pool| && Idle(c.pool[n])
  {
    hide Dropped, Stranded, EntryOk;
    k := ClosedSomewhere(steps);
    LeaksAreLost(steps, n);
    LostWasCompiled(steps, n);
    DroppedIsOffMap(steps[..k], n);
    StrandedMeans(After(steps[..k]).value.cache, n);
  }

  lemma {:induction false} LostWasCompiled(steps: seq<Step>, n: nat)
    requires After(steps).Some? && n < |After(steps).value.cache.pool|
    ensures n in After(steps).value.lost ==> After(steps).value.cache.pool[n].status == Compiled
  {
    RunKeeps(steps);
    assert EntryOk(After(steps).value, n);
  }

  lemma {:induction false} StrandedMeans(c: Cache, n: nat)
    ensures n in Stranded(c) <==> OffMap(c, n) && Idle(c.pool[n])
    ensures OffMap(c, n) && Idle(c.pool[n]) ==> Missing(c, n)
  {
  }

  // ------------------------------------------- runs that cannot strand an entry

  /** No key is acquired anew while an evicted entry of it is still compiling. */
  ghost predicate Patient(s: Sys, step: Step)
  {
    step.LookUp? ==>
      forall n :: 0 <= n < |s.cache.pool| && s.cache.pool[n].key == step.key && s.cache.pool[n].status == Compiling ==>
        !s.cache.pool[n].evicted
  }

  ghost predicate PatientRun(steps: seq<Step>)
  {
    forall k :: 0 <= k < |steps| && After(steps[..k]).Some? ==> Patient(After(steps[..k]).value, steps[k])
  }

  /** A wanted entry is in the map; no key is taken while an evicted entry of it compiles. */
  ghost predicate Seen(c: Cache, n: nat)
    requires n < |c.pool|
  {
    var e := c.pool[n];
    && (!e.evicted && e.status != Failed ==> e.key in c.entries && c.entries[e.key] == n)
    && (e.evicted && e.status == Compiling ==> e.key !in c.entries)
  }

  ghost predicate Visible(c: Cache)
  {
    !c.closed ==> forall n :: 0 <= n < |c.pool| ==> Seen(c, n)
  }

  lemma {:induction false} LookupSees(c: Cache, key: Key)
    requires Visible(c) && MapOk(c)
    requires forall n :: 0 <= n < |c.pool| && c.pool[n].key == key && c.pool[n].status == Compiling ==> !c.pool[n].evicted
    ensures Visible(Lookup(c, key).0)
  {
    var d := Lookup(c, key).0;
    if !c.closed {
      forall n | 0 <= n < |d.pool| ensures Seen(d, n) { if n < |c.pool| { assert Seen(c, n) && c.pool[n] == d.pool[n]; } }
    }
  }

  lemma {:induction false} PublishSees(c: Cache, n: nat, ok: bool)
    requires Visible(c) && n < |c.pool| && c.pool[n].status == Compiling
    ensures Visible(Publish(c, n, ok).0)
  {
    var d := Publish(c, n, ok).0;
    if !c.closed {
      assert Seen(c, n);
      forall i | 0 <= i < |d.pool| ensures Seen(d, i) { assert Seen(c, i); }
    }
  }

  lemma {:induction false} EvictSees(c: Cache, key: Key)
    requires Visible(c) && MapOk(c)
    ensures Visible(Evict(c, key).0)
  {
    var d := Evict(c, key).0;
    if !c.closed {
      forall i | 0 <= i < |d.pool| ensures Seen(d, i) { assert Seen(c, i); }
    }
  }

  /** Only the reference count of an entry changes. */
  lemma {:induction false} RefsSee(c: Cache, n: nat, refs: nat)
    requires Visible(c) && n < |c.pool|
    ensures Visible(c.(pool := c.pool[n := c.pool[n].(refs := refs)]))
  {
    var d := c.(pool := c.pool[n := c.pool[n].(refs := refs)]);
    if !c.closed {
      forall i | 0 <= i < |d.pool| ensures Seen(d, i) { assert Seen(c, i); }
    }
  }

  lemma {:induction false} PatientKeeps(s: Sys, step: Step)
    requires Inv(s) && Visible(s.cache) && Enabled(s, step) && Patient(s, step)
    ensures Visible(Apply(s, step).cache)
  {
    if IsAside(step) { AsideKeepsCache(s, step); } else { SectionSees(s, step); }
  }

  lemma {:induction false} SectionSees(s: Sys, step: Step)
    requires Inv(s) && Visible(s.cache) && Enabled(s, step) && Patient(s, step) && !IsAside(step)
    ensures Visible(Apply(s, step).cache)
  {
    hide Visible, EntryOk, Stranded, Moved, Changed, Yielded;
    match step
    case LookUp(key) => LookupSees(s.cache, key);
    case PublishCompiled(n, ok) => PublishSees(s.cache, n, ok);
    case TakeLease(n) => RefsSee(s.cache, n, s.cache.pool[n].refs + 1);
    case EvictKey(key) => EvictSees(s.cache, key);
    case CloseCache => ClosedSees(Apply(s, step).cache);
    case ReleaseLease(l) =>
      var n := s.leases[l].entry;
      if s.cache.pool[n].refs > 0 { RefsSee(s.cache, n, s.cache.pool[n].refs - 1); }
  }

  lemma {:induction false} ClosedSees(c: Cache)
    requires c.closed
    ensures Visible(c)
  {
  }

  lemma {:induction false} PatientRunKeeps(steps: seq<Step>)
    requires After(steps).Some? && PatientRun(steps)
    ensures Visible(After(steps).value.cache)
  {
    if steps != [] {
      var n := |steps| - 1;
      var front := steps[..n];
      assert forall k :: 0 <= k < n ==> front[..k] == steps[..k] && front[k] == steps[k];
      PatientRunKeeps(front);
      RunKeeps(front);
      PatientKeeps(After(front).value, steps[n]);
    }
  }

  lemma {:induction false} PatientPrefix(steps: seq<Step>, k: nat)
    requires PatientRun(steps) && k <= |steps|
    ensures PatientRun(steps[..k])
  {
    assert forall j :: 0 <= j < k ==> steps[..k][..j] == steps[..j] && steps[..k][j] == steps[j];
  }

  lemma {:induction false} VisibleNotStranded(c: Cache)
    requires Visible(c) && !c.closed
    ensures Stranded(c) == {}
  {
    forall n | 0 <= n < |c.pool| && Idle(c.pool[n]) && !c.pool[n].evicted ensures n in Listed(c.entries) {
      assert Seen(c, n);
      assert c.pool[n].key in c.entries && c.entries[c.pool[n].key] == n;
    }
  }

  /** No leak on any patient run. */
  lemma {:induction false} PatientNoLeak(steps: seq<Step>)
    requires After(steps).Some? && Quiescent(After(steps).value) && PatientRun(steps)
    ensures NothingLeaks(After(steps).value)
  {
    hide Quiescent, NothingLeaks, Visible, Stranded, PatientRun, After;
    var k := NoLeakExactly(steps);
    PatientPrefix(steps, k);
    PatientRunKeeps(steps[..k]);
    VisibleNotStranded(After(steps[..k]).value.cache);
  }

  // --------------------------------------------------------- the run that leaks

  const KEY := Key(1, "digest", "fingerprint")

  const COMPILING := Entry(KEY, Compiling, 0, false)
  const ORPHAN := Entry(KEY, Compiled, 0, false)
  const FIRST := Entry(KEY, Compiled, 0, true)

  /** The key is evicted while its first entry compiles, acquired again, and the
      first leader's delete by key then takes the second entry out of the map. */
  const DROPPED: seq<Step> := [LookUp(KEY), EvictKey(KEY), LookUp(KEY), PublishCompiled(0, true), CloseModule(0)]

  /** The second entry is compiled, leased, released; then the cache is closed. */
  const ABANDONED: seq<Step> :=
    [PublishCompiled(1, true), TakeLease(0), TakeLease(1), CheckClose(0), FinishClose(0), ReleaseLease(0), CloseCache]

  lemma {:induction false} RunStep(steps: seq<Step>, s: Sys, step: Step, t: Sys)
    requires After(steps) == Some(s) && Enabled(s, step) && Apply(s, step) == t
    ensures After(steps + [step]) == Some(t)
  {
    assert (steps + [step])[..|steps|] == steps;
  }

  const EVICTED := INIT.(cache := Cache(map[], [COMPILING.(evicted := true)], false))
  const REACQUIRED := EVICTED.(cache := Cache(map[KEY := 1], [COMPILING.(evicted := true), COMPILING], false))

  lemma {:induction false} EvictedWhileCompiling()
    ensures After(DROPPED[..2]) == Some(EVICTED)
  {
    hide After, Close, Stranded;
    EmptyRun();
    var s1 := INIT.(cache := Cache(map[KEY := 0], [COMPILING], false));
    RunStep([], INIT, LookUp(KEY), s1);
    assert [] + [LookUp(KEY)] == [LookUp(KEY)];
    assert map[KEY := 0] - {KEY} == map[];
    RunStep([LookUp(KEY)], s1, EvictKey(KEY), EVICTED);
    assert [LookUp(KEY)] + [EvictKey(KEY)] == DROPPED[..2];
  }

  lemma {:induction false} AcquiredAgain()
    ensures After(DROPPED[..3]) == Some(REACQUIRED) && !PatientRun(DROPPED)
  {
    hide After, Close, Stranded;
    EvictedWhileCompiling();
    RunStep(DROPPED[..2], EVICTED, LookUp(KEY), REACQUIRED);
    assert DROPPED[..2] + [LookUp(KEY)] == DROPPED[..3];
    assert !Patient(EVICTED, DROPPED[2]) by { assert EVICTED.cache.pool[0].evicted; }
  }

  lemma {:induction false} EntryDropped()
    ensures After(DROPPED) == Some(Sys(Cache(map[], [FIRST, COMPILING], false), multiset{0}, [], multiset{}, multiset{}, multiset{0}, {}))
  {
    hide After, Close, Stranded;
    AcquiredAgain();
    assert map[KEY := 1] - {KEY} == map[];
    var s4 := REACQUIRED.(cache := Cache(map[], [FIRST, COMPILING], false), holders := multiset{0}, pending := multiset{0});
    RunStep(DROPPED[..3], REACQUIRED, PublishCompiled(0, true), s4);
    assert DROPPED[..3] + [PublishCompiled(0, true)] == DROPPED[..4];
    RunStep(DROPPED[..4], s4, CloseModule(0), s4.(pending := multiset{}, closes := multiset{0}));
    assert DROPPED[..4] + [CloseModule(0)] == DROPPED;
  }

  lemma {:induction false} EmptyRun()
    ensures After([]) == Some(INIT)
  {
  }

  const LEASED := Sys(Cache(map[], [FIRST, ORPHAN.(refs := 1)], false), multiset{}, [Lease(1, Held, NoInstance)], multiset{}, multiset{}, multiset{0}, {})

  lemma {:induction false} SecondEntryLeased()
    ensures After(DROPPED + ABANDONED[..3]) == Some(LEASED)
  {
    hide After;
    EntryDropped();
    var s5 := Sys(Cache(map[], [FIRST, COMPILING], false), multiset{0}, [], multiset{}, multiset{}, multiset{0}, {});
    var s6 := s5.(cache := Cache(map[], [FIRST, ORPHAN], false), holders := multiset{0, 1});
    RunStep(DROPPED, s5, ABANDONED[0], s6);
    var s7 := s6.(holders := multiset{1});
    assert DROPPED + [ABANDONED[0]] == DROPPED + ABANDONED[..1];
    RunStep(DROPPED + ABANDONED[..1], s6, ABANDONED[1], s7);
    assert DROPPED + ABANDONED[..1] + [ABANDONED[1]] == DROPPED + ABANDONED[..2];
    RunStep(DROPPED + ABANDONED[..2], s7, ABANDONED[2], LEASED);
    assert DROPPED + ABANDONED[..2] + [ABANDONED[2]] == DROPPED + ABANDONED[..3];
  }

  const RETURNED := LEASED.(cache := Cache(map[], [FIRST, ORPHAN], false), leases := [Lease(1, Released, NoInstance)])

  lemma {:induction false} SecondEntryReturned()
    ensures After(DROPPED + ABANDONED[..6]) == Some(RETURNED)
  {
    hide After;
    SecondEntryLeased();
    var s8 := LEASED.(closers := multiset{0});
    var s9 := LEASED.(leases := [Lease(1, Releasing, NoInstance)]);
    RunStep(DROPPED + ABANDONED[..3], LEASED, ABANDONED[3], s8);
    assert DROPPED + ABANDONED[..3] + [ABANDONED[3]] == DROPPED + ABANDONED[..4];
    RunStep(DROPPED + ABANDONED[..4], s8, ABANDONED[4], s9);
    assert DROPPED + ABANDONED[..4] + [ABANDONED[4]] == DROPPED + ABANDONED[..5];
    RunStep(DROPPED + ABANDONED[..5], s9, ABANDONED[5], RETURNED);
    assert DROPPED + ABANDONED[..5] + [ABANDONED[5]] == DROPPED + ABANDONED[..6];
  }

  lemma {:induction false} ClosingMissesIt()
    ensures Enabled(RETURNED, CloseCache)
    ensures var s := Apply(RETURNED, CloseCache);
            Quiescent(s) && s.cache.pool == [FIRST, ORPHAN] && s.closes[1] == 0
  {
    var s := Apply(RETURNED, CloseCache);
    assert Listed(RETURNED.cache.entries) == {};
    assert s.pending == multiset{};
  }

  /** A quiescent run that leaves a compiled module open: nobody holds the second
      module and nobody will ever close it. */
  lemma {:induction false} ReacquireLeaks()
    ensures After(DROPPED + ABANDONED).Some?
    ensures var s := After(DROPPED + ABANDONED).value;
            Quiescent(s) && s.cache.pool == [FIRST, ORPHAN] && s.closes[1] == 0 && !NothingLeaks(s)
  {
    hide After, Enabled, Apply, Quiescent;
    SecondEntryReturned();
    ClosingMissesIt();
    RunStep(DROPPED + ABANDONED[..6], RETURNED, CloseCache, Apply(RETURNED, CloseCache));
    assert DROPPED + ABANDONED[..6] + [CloseCache] == DROPPED + ABANDONED;
    assert [FIRST, ORPHAN][1] == ORPHAN;
  }

  // ------------------------------------------- the run that closes a module in use

  /** A call to close the lease finds it unused; then the lease is instantiated; then
      the call goes on, and releases it. */
  const OVERLAPPED: seq<Step> := [
    LookUp(KEY), PublishCompiled(0, true), TakeLease(0), CheckClose(0), StartInstance(0),
    FinishClose(0), ReleaseLease(0), FinishStart(0, true), EvictKey(KEY), CloseModule(0)
  ]

  const IN_MAP := INIT.(cache := Cache(map[KEY := 0], [ORPHAN], false))

  function Overlapped(k: nat): Sys
  {
    if k == 0 then INIT
    else if k == 1 then INIT.(cache := Cache(map[KEY := 0], [COMPILING], false))
    else if k == 2 then IN_MAP.(holders := multiset{0})
    else if k == 3 then IN_MAP.(cache := Cache(map[KEY := 0], [ORPHAN.(refs := 1)], false), leases := [Lease(0, Held, NoInstance)])
    else if k == 4 then Overlapped(3).(closers := multiset{0})
    else if k == 5 then Overlapped(4).(leases := [Lease(0, Held, Starting)])
    else if k == 6 then Overlapped(3).(leases := [Lease(0, Releasing, Starting)])
    else if k == 7 then IN_MAP.(leases := [Lease(0, Released, Starting)])
    else if k == 8 then IN_MAP.(leases := [Lease(0, Released, Running)])
    else if k == 9 then Overlapped(8).(cache := Cache(map[], [FIRST], false), pending := multiset{0})
    else Overlapped(9).(pending := multiset{}, closes := multiset{0})
  }

  lemma {:induction false} FirstSteps(k: nat)
    requires k < 2
    ensures Enabled(Overlapped(k), OVERLAPPED[k]) && Apply(Overlapped(k), OVERLAPPED[k]) == Overlapped(k + 1)
  {
    hide Close, Stranded, After, Evict, Release, Take;
  }

  lemma {:induction false} CloseChecked()
    ensures Enabled(Overlapped(3), OVERLAPPED[3]) && Apply(Overlapped(3), OVERLAPPED[3]) == Overlapped(4)
  {
    hide Close, Stranded, After, Evict, Release, Lookup, Publish, Take;
    var nobody: multiset<nat> := multiset{};
    assert nobody + multiset{0} == multiset{0};
  }

  lemma {:induction false} StartBegun()
    ensures Enabled(Overlapped(4), OVERLAPPED[4]) && Apply(Overlapped(4), OVERLAPPED[4]) == Overlapped(5)
  {
    hide Close, Stranded, After, Evict, Release, Lookup, Publish, Take;
    assert [Lease(0, Held, NoInstance)][0 := Lease(0, Held, Starting)] == [Lease(0, Held, Starting)];
  }

  lemma {:induction false} LeaseTaken()
    ensures Enabled(Overlapped(2), OVERLAPPED[2]) && Apply(Overlapped(2), OVERLAPPED[2]) == Overlapped(3)
  {
    hide Close, Stranded, After, Evict, Release, Lookup, Publish;
    assert [ORPHAN][0 := ORPHAN.(refs := 1)] == [ORPHAN.(refs := 1)];
  }

  lemma {:induction false} CloseGoesOn()
    ensures Enabled(Overlapped(5), OVERLAPPED[5]) && Apply(Overlapped(5), OVERLAPPED[5]) == Overlapped(6)
  {
    hide Close, Stranded, After, Evict, Lookup, Publish, Take, Release;
    assert [Lease(0, Held, Starting)][0 := Lease(0, Releasing, Starting)] == [Lease(0, Releasing, Starting)];
  }

  lemma {:induction false} LeaseReleased()
    ensures Enabled(Overlapped(6), OVERLAPPED[6]) && Apply(Overlapped(6), OVERLAPPED[6]) == Overlapped(7)
  {
    hide Close, Stranded, After, Evict, Lookup, Publish, Take;
    assert [ORPHAN.(refs := 1)][0 := ORPHAN] == [ORPHAN];
    assert [Lease(0, Releasing, Starting)][0 := Lease(0, Released, Starting)] == [Lease(0, Released, Starting)];
  }

  lemma {:induction false} StartFinished()
    ensures Enabled(Overlapped(7), OVERLAPPED[7]) && Apply(Overlapped(7), OVERLAPPED[7]) == Overlapped(8)
  {
    hide Close, Stranded, After, Evict, Lookup, Publish, Take, Release;
    assert [Lease(0, Released, Starting)][0 := Lease(0, Released, Running)] == [Lease(0, Released, Running)];
  }

  lemma {:induction false} KeyEvicted()
    ensures Enabled(Overlapped(8), OVERLAPPED[8]) && Apply(Overlapped(8), OVERLAPPED[8]) == Overlapped(9)
  {
    hide Close, Stranded, After, Release, Lookup, Publish, Take;
    assert map[KEY := 0] - {KEY} == map[];
    assert [ORPHAN][0 := FIRST] == [FIRST];
  }

  lemma {:induction false} ModuleClosed()
    ensures Enabled(Overlapped(9), OVERLAPPED[9]) && Apply(Overlapped(9), OVERLAPPED[9]) == Overlapped(10)
  {
    hide Close, Stranded, After, Release, Lookup, Publish, Take, Evict;
  }

  lemma {:induction false} OverlappedAfter(k: nat)
    requires k <= 10
    ensures After(OVERLAPPED[..k]) == Some(Overlapped(k))
  {
    hide After, Apply, Enabled, Overlapped;
    if k == 0 {
      assert OVERLAPPED[..0] == [];
      EmptyRun();
      NothingOverlapped();
    } else {
      OverlappedAfter(k - 1);
      if k <= 2 { FirstSteps(k - 1); }
      if k == 3 { LeaseTaken(); }
      if k == 4 { CloseChecked(); }
      if k == 5 { StartBegun(); }
      if k == 6 { CloseGoesOn(); }
      if k == 7 { LeaseReleased(); }
      if k == 8 { StartFinished(); }
      if k == 9 { KeyEvicted(); }
      if k == 10 { ModuleClosed(); }
      RunStep(OVERLAPPED[..k - 1], Overlapped(k - 1), OVERLAPPED[k - 1], Overlapped(k));
      assert OVERLAPPED[..k - 1] + [OVERLAPPED[k - 1]] == OVERLAPPED[..k];
    }
  }

  lemma {:induction false} NothingOverlapped()
    ensures Overlapped(0) == INIT
  {
  }

  /** In the end the module is closed while its instance runs. */
  lemma {:induction false} ClosedInUse()
    ensures After(OVERLAPPED).Some?
    ensures var s := After(OVERLAPPED).value;
            |s.leases| == 1 && s.leases[0].entry == 0 && s.leases[0].instance == Running && s.closes[0] == 1
  {
    hide After;
    OverlappedAfter(10);
    assert OVERLAPPED[..10] == OVERLAPPED;
  }
}
