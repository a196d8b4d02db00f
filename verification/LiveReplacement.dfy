/** The live replacement transaction: seven stages, rolled back at any of them,
    over a router that keeps admitting calls. */
module LiveReplacement {
  import opened Text
  import opened Graphs
  import opened Plans
  import opened PlanBuilder
  import opened PlanFacts
  import opened Impact
  import opened Routing

  datatype Deployment = Deployment(plan: Plan, value: Runtime, revisions: map<string, string>)

  datatype Module = Module(id: string, dependsOn: seq<string>, revision: string)

  datatype Stage = Prepare | Quiesce | Snapshot | Migrate | Swap | Health | Commit

  datatype Status = Started | Completed | Committed | RolledBack

  /** A call of the transaction to the lifecycle or the recorder. */
  datatype Call = Enter(stage: Stage) | Note(stage: Stage, status: Status) | RollBack(stage: Stage)

  /** One call: how it ended, the router as it found it, the runtime it was made
      on (for Prepare, the one it returned) and the snapshot it was given (for
      Snapshot, the one it returned). */
  datatype Event = Event(call: Call, ok: bool, view: View, runtime: Option<Runtime>, snapshot: Option<nat>)

  /** The calls of a transaction in which nothing fails. */
  const SCRIPT: seq<Call> := [
    Note(Prepare, Started), Enter(Prepare), Note(Prepare, Completed),
    Enter(Quiesce), Note(Quiesce, Completed), Enter(Snapshot), Note(Snapshot, Completed),
    Enter(Migrate), Note(Migrate, Completed), Enter(Swap), Note(Swap, Completed),
    Enter(Health), Note(Health, Completed), Enter(Commit), Note(Commit, Committed)
  ]

  const QUIESCED := 4
  const SWAPPED := 10
  const COMMITTED := 14

  /** Everything outside that bears on a transaction: who comes and goes before
      each call, during Quiesce's wait and around the rollback, whether the wait is
      given up, whether the factory makes a runtime, and which calls fail. Call 1,
      Prepare, fails if nothing is made or what is made does not start. */
  datatype World = World(traffic: nat -> seq<Move>, waiting: seq<Move>, givenUp: bool, made: bool, fails: nat -> bool,
                         snapshot: Option<nat>, undoing: seq<Move>, undoFails: bool, closing: seq<Move>, closingFails: bool)

  /** A transaction: the world, the router at the start, the deployed runtime and
      the number the next runtime will have. */
  datatype Story = Story(world: World, start: View, previous: Runtime, next: Runtime)
  {
    ghost predicate Ready()
    {
      start.Consistent() && start.Serves(previous) && previous < next && forall r :: r in start.leases ==> r < next
    }
  }

  // ------------------------------------------------------------ specification

  /** The router before the i-th call, before the traffic that precedes it. */
  ghost function Arrived(s: Story, i: nat): View
    decreases i, 0
  {
    if i == 0 then s.start else Left(s, i - 1)
  }

  /** The router as the i-th call finds it. */
  ghost function ViewAt(s: Story, i: nat): View
    decreases i, 1
  {
    Moved(Arrived(s, i), s.world.traffic(i))
  }

  /** The router as the i-th call leaves it, whether it fails or not. */
  ghost function Left(s: Story, i: nat): View
    decreases i, 2
  {
    if i == QUIESCED - 1 then Quiesced(ViewAt(s, i), s.world.waiting)
    else if i == SWAPPED - 1 then ViewAt(s, i).(target := Some(s.next), accepting := true)
    else ViewAt(s, i)
  }

  /** Whether the i-th call fails. Swap cannot: the candidate is a runtime. */
  ghost predicate FailsAt(s: Story, i: nat)
  {
    if i == 1 then !s.world.made || s.world.fails(i)
    else if i == QUIESCED - 1 then ViewAt(s, i).inflight > 0 && (Left(s, i).pending || s.world.givenUp)
    else i != SWAPPED - 1 && s.world.fails(i)
  }

  ghost function Candidate(s: Story): Option<Runtime> { if FailsAt(s, 1) then None else Some(s.next) }

  /** The runtime a call is made on. */
  ghost function RuntimeFor(s: Story, c: Call): Option<Runtime>
  {
    match c
    case Note(_, _) => None
    case Enter(stage) => if stage in {Prepare, Migrate, Swap, Health} then Candidate(s) else Some(s.previous)
    case RollBack(_) => Some(s.previous)
  }

  /** The snapshot a call is given. */
  ghost function SnapshotFor(s: Story, c: Call): Option<nat>
  {
    match c
    case Note(stage, _) => if stage in {Prepare, Quiesce} then None else s.world.snapshot
    case Enter(stage) => if stage in {Snapshot, Migrate} then s.world.snapshot else None
    case RollBack(stage) => if stage in {Prepare, Quiesce} then None else s.world.snapshot
  }

  ghost function EventAt(s: Story, i: nat): Event
    requires i < |SCRIPT|
  {
    Event(SCRIPT[i], !FailsAt(s, i), ViewAt(s, i), RuntimeFor(s, SCRIPT[i]), SnapshotFor(s, SCRIPT[i]))
  }

  /** The first k calls of the script. */
  ghost function Script(s: Story, k: nat): (log: seq<Event>)
    requires k <= |SCRIPT|
    ensures |log| == k && forall i :: 0 <= i < k ==> log[i] == EventAt(s, i)
  {
    if k == 0 then [] else Script(s, k - 1) + [EventAt(s, k - 1)]
  }

  /** The first of the calls from the i-th on that fails. */
  ghost function FailureFrom(s: Story, i: nat): (n: nat)
    requires i <= |SCRIPT|
    ensures i <= n <= |SCRIPT| && (forall j :: i <= j < n ==> !FailsAt(s, j)) && (n < |SCRIPT| ==> FailsAt(s, n))
    decreases |SCRIPT| - i
  {
    if i == |SCRIPT| || FailsAt(s, i) then i else FailureFrom(s, i + 1)
  }

  ghost function FirstFailure(s: Story): (n: nat)
    ensures n <= |SCRIPT| && (forall j :: 0 <= j < n ==> !FailsAt(s, j)) && (n < |SCRIPT| ==> FailsAt(s, n))
  {
    FailureFrom(s, 0)
  }

  /** If the very first record fails nothing has been done; if the very last one
      fails the replacement stands; any other failure is rolled back. */
  ghost predicate IsRolledBack(n: nat) { 0 < n < COMMITTED }

  /** The router as the rollback finds it, as it leaves it, and as the record of
      the rollback finds it. */
  ghost function AtRollback(s: Story, n: nat): View { Moved(Left(s, n), s.world.undoing) }

  ghost function Restored(s: Story, n: nat): View { AtRollback(s, n).(target := Some(s.previous), accepting := true) }

  ghost function AtClosing(s: Story, n: nat): View { Moved(Restored(s, n), s.world.closing) }

  ghost function RollbackEvents(s: Story, n: nat): seq<Event>
    requires n < |SCRIPT|
  {
    var undo, note := RollBack(SCRIPT[n].stage), Note(SCRIPT[n].stage, RolledBack);
    [Event(undo, !s.world.undoFails || Candidate(s).None?, AtRollback(s, n), RuntimeFor(s, undo), SnapshotFor(s, undo)),
     Event(note, !s.world.closingFails, AtClosing(s, n), None, SnapshotFor(s, note))]
  }

  /** All calls of the transaction. */
  ghost function Transcript(s: Story): seq<Event>
  {
    var n := FirstFailure(s);
    if n == |SCRIPT| then Script(s, n)
    else Script(s, n + 1) + if IsRolledBack(n) then RollbackEvents(s, n) else []
  }

  /** The router when the transaction is over. */
  ghost function EndView(s: Story): View
  {
    var n := FirstFailure(s);
    if IsRolledBack(n) then AtClosing(s, n) else Left(s, if n == 0 then 0 else COMMITTED)
  }

  /** The runtimes it has told to shut down. */
  ghost function ShutDown(s: Story): set<Runtime>
  {
    var n := FirstFailure(s);
    (if n >= COMMITTED - 1 then {s.previous} else {}) + (if IsRolledBack(n) && s.world.made then {s.next} else {})
  }

  /** How many runtimes there are when it is over. */
  ghost function Created(s: Story): nat { s.next + if FirstFailure(s) > 0 && s.world.made then 1 else 0 }

  ghost predicate Replaces(s: Story) { FirstFailure(s) >= COMMITTED }

  ghost predicate Plannable(items: seq<Item>) { WellFormed(items) && Acyclic(GraphOf(items)) }

  ghost function ItemsOf(modules: seq<Module>): seq<Item>
  {
    if modules == [] then []
    else var last := modules[|modules| - 1]; ItemsOf(modules[..|modules| - 1]) + [Item(last.id, last.dependsOn)]
  }

  ghost function RevisionsOf(modules: seq<Module>): map<string, string>
  {
    if modules == [] then map[]
    else var last := modules[|modules| - 1]; RevisionsOf(modules[..|modules| - 1])[last.id := last.revision]
  }

  /** Each module is one item, in the given order. */
  lemma {:induction false} ItemsExactly(modules: seq<Module>)
    ensures |ItemsOf(modules)| == |modules|
    ensures forall i :: 0 <= i < |modules| ==> ItemsOf(modules)[i] == Item(modules[i].id, modules[i].dependsOn)
  {
    if modules != [] { ItemsExactly(modules[..|modules| - 1]); }
  }

  /** The i-th module is the last one with its id. */
  ghost predicate LastNamed(modules: seq<Module>, id: string, i: nat)
  {
    i < |modules| && modules[i].id == id && forall j :: i < j < |modules| ==> modules[j].id != id
  }

  /** A module gives its own revision; of modules with one id the last one counts. */
  lemma {:induction false} RevisionsExactly(modules: seq<Module>, id: string)
    ensures id in RevisionsOf(modules) <==> exists i: nat :: LastNamed(modules, id, i)
    ensures forall i: nat :: LastNamed(modules, id, i) ==> id in RevisionsOf(modules) && RevisionsOf(modules)[id] == modules[i].revision
  {
    if modules != [] {
      var n := |modules| - 1;
      var front := modules[..n];
      RevisionsExactly(front, id);
      if modules[n].id == id {
        assert LastNamed(modules, id, n);
      } else {
        forall i: nat ensures LastNamed(modules, id, i) <==> LastNamed(front, id, i) { SameLast(modules, id, i); }
      }
    }
  }

  lemma {:induction false} SameLast(modules: seq<Module>, id: string, i: nat)
    requires modules != [] && modules[|modules| - 1].id != id
    ensures LastNamed(modules, id, i) <==> LastNamed(modules[..|modules| - 1], id, i)
  {
    var front := modules[..|modules| - 1];
    assert forall j :: 0 <= j < |front| ==> front[j] == modules[j];
  }

  ghost predicate NoChange(c: ChangeSet) { |c.added| + |c.updated| + |c.removed| == 0 }

  // ------------------------------------------------------------ facts about phases

  /** The router as the n-th call finds it: serving the old runtime until it is
      quiesced, then closed with no call left, then serving the candidate while
      every call that is out is on the candidate. */
  ghost predicate Phase(n: nat, v: View, s: Story)
  {
    && v.Consistent()
    && (n < QUIESCED ==> v.Serves(s.previous) && Older(v, s.next))
    && (QUIESCED <= n < SWAPPED ==> v.Drained() && v.target == Some(s.previous))
    && (SWAPPED <= n ==> v.Serves(s.next) && OnlyOn(v, s.next))
  }

  /** Calls are out on runtimes made before r only. */
  ghost predicate Older(v: View, r: Runtime) { forall x :: x in v.leases ==> x < r }

  ghost predicate OnlyOn(v: View, r: Runtime) { forall x :: x in v.leases ==> x == r }

  lemma {:induction false} PhaseStays(n: nat, v: View, moves: seq<Move>, s: Story)
    requires Phase(n, v, s) && s.previous < s.next
    ensures Phase(n, Moved(v, moves), s)
  {
    hide OnlyTraffic, Moved, Older, OnlyOn;
    MovedIsTraffic(v, moves);
    TrafficKeeps(v, Moved(v, moves));
    if n < QUIESCED { OlderStays(v, moves, s.next); }
    if QUIESCED <= n < SWAPPED { StaysDrained(v, Moved(v, moves)); }
    if SWAPPED <= n { OnlyOnStays(v, moves, s.next); }
  }

  lemma {:induction false} OlderStays(v: View, moves: seq<Move>, r: Runtime)
    requires v.Consistent() && Older(v, r) && (v.target.Some? ==> v.target.value < r)
    ensures Older(Moved(v, moves), r)
  {
    hide Moved;
    MovedIsTraffic(v, moves);
    forall x | x in Moved(v, moves).leases ensures x < r {
      if x !in v.leases { assert v.leases[x] == 0; assert v.Serves(x); }
    }
  }

  lemma {:induction false} OnlyOnStays(v: View, moves: seq<Move>, r: Runtime)
    requires v.Consistent() && OnlyOn(v, r) && v.target == Some(r)
    ensures OnlyOn(Moved(v, moves), r)
  {
    hide Moved;
    MovedIsTraffic(v, moves);
    forall x | x in Moved(v, moves).leases ensures x == r {
      if x !in v.leases { assert v.leases[x] == 0; assert v.Serves(x); }
    }
  }

  /** As long as nothing has failed, the router is in the phase of the script. */
  lemma {:induction false} PhaseAt(s: Story, i: nat)
    requires s.Ready() && i <= |SCRIPT| && forall j :: 0 <= j < i ==> !FailsAt(s, j)
    ensures Phase(i, Arrived(s, i), s) && Phase(i, ViewAt(s, i), s)
  {
    hide Phase, FailsAt;
    if i == 0 {
      StartPhase(s);
    } else {
      PhaseAt(s, i - 1);
      assert !FailsAt(s, i - 1);
      if i == QUIESCED { QuiescedPhase(s); } else if i == SWAPPED { SwappedPhase(s); } else {
        SamePhase(i - 1, ViewAt(s, i - 1), s);
        assert Arrived(s, i) == Left(s, i - 1) == ViewAt(s, i - 1);
      }
    }
    PhaseStays(i, Arrived(s, i), s.world.traffic(i), s);
  }

  lemma {:induction false} StartPhase(s: Story)
    requires s.Ready()
    ensures Phase(0, Arrived(s, 0), s) && s.previous < s.next
  {
  }

  lemma {:induction false} SamePhase(n: nat, v: View, s: Story)
    requires Phase(n, v, s) && n + 1 != QUIESCED && n + 1 != SWAPPED
    ensures Phase(n + 1, v, s)
  {
  }

  lemma {:induction false} QuiescedPhase(s: Story)
    requires Phase(QUIESCED - 1, ViewAt(s, QUIESCED - 1), s) && !FailsAt(s, QUIESCED - 1)
    ensures Phase(QUIESCED, Arrived(s, QUIESCED), s)
  {
    hide Quiesced, ViewAt;
    QuiescedMeans(ViewAt(s, QUIESCED - 1), s.world.waiting);
    assert ViewAt(s, QUIESCED - 1).inflight == 0 ==> Quiesced(ViewAt(s, QUIESCED - 1), s.world.waiting).inflight == 0 by {
      NobodyWaits(ViewAt(s, QUIESCED - 1), s.world.waiting);
    }
  }

  lemma {:induction false} NobodyWaits(v: View, waiting: seq<Move>)
    ensures v.inflight == 0 ==> Quiesced(v, waiting).inflight == 0
  {
  }

  lemma {:induction false} SwappedPhase(s: Story)
    requires Phase(SWAPPED - 1, ViewAt(s, SWAPPED - 1), s)
    ensures Phase(SWAPPED, Arrived(s, SWAPPED), s)
  {
    hide ViewAt;
  }

  // ------------------------------------------- what every transaction guarantees

  /** No call is outstanding, and none can be admitted, while the old runtime's
      state is taken. */
  lemma {:induction false} DrainedAtSnapshot(s: Story, i: nat)
    requires s.Ready() && i < |Transcript(s)| && Transcript(s)[i].call == Enter(Snapshot)
    ensures Transcript(s)[i].view.Drained() && Transcript(s)[i].view.target == Some(s.previous)
  {
    hide Phase, Script, FailsAt, ViewAt, Arrived, Left;
    InScript(s, i);
    PhaseAt(s, i);
    PhaseMeans(i, ViewAt(s, i), s);
  }

  /** When the old runtime is told to shut down every call that is out is on the
      candidate, which serves. */
  lemma {:induction false} DrainedAtRetire(s: Story, i: nat)
    requires s.Ready() && i < |Transcript(s)| && Transcript(s)[i].call == Enter(Commit)
    ensures s.previous !in Transcript(s)[i].view.leases && Transcript(s)[i].view.Serves(s.next) && Candidate(s) == Some(s.next)
  {
    hide Phase, Script, FailsAt, ViewAt, Arrived, Left;
    InScript(s, i);
    PhaseAt(s, i);
    PhaseMeans(i, ViewAt(s, i), s);
  }

  lemma {:induction false} PhaseMeans(n: nat, v: View, s: Story)
    requires Phase(n, v, s) && s.previous < s.next
    ensures QUIESCED <= n < SWAPPED ==> v.Drained() && v.target == Some(s.previous)
    ensures SWAPPED <= n ==> v.Serves(s.next) && s.previous !in v.leases
  {
  }

  /** A lifecycle call of the transcript is where the script has it. */
  lemma {:induction false} InScript(s: Story, i: nat)
    requires i < |Transcript(s)| && Transcript(s)[i].call.Enter?
    ensures i <= FirstFailure(s) && i < |SCRIPT| && Transcript(s)[i] == EventAt(s, i)
    ensures s.Ready() ==> s.previous < s.next
  {
    hide FailsAt, ViewAt, Left, RuntimeFor, SnapshotFor, Candidate, FirstFailure, Script;
  }

  /** A transaction that was started and did not commit is rolled back exactly
      once, told the stage of the call that failed; no other is rolled back. */
  lemma {:induction false} RolledBackOnce(s: Story, i: nat)
    requires i < |Transcript(s)|
    ensures Transcript(s)[i].call.RollBack? <==> IsRolledBack(FirstFailure(s)) && i == FirstFailure(s) + 1
    ensures Transcript(s)[i].call.RollBack? ==>
              Transcript(s)[i].call.stage == SCRIPT[FirstFailure(s)].stage && Transcript(s)[i].view == AtRollback(s, FirstFailure(s))
  {
    hide FailsAt, ViewAt, Left, AtRollback, AtClosing, RuntimeFor, SnapshotFor, Candidate, FirstFailure, Script;
  }

  // ----------------------------------------------------------- what is on record

  /** The record was asked for; it was written. */
  ghost predicate Notes(log: seq<Event>, i: nat, status: Status) { i < |log| && log[i].call.Note? && log[i].call.status == status }

  ghost predicate Wrote(log: seq<Event>, status: Status) { exists i: nat :: Notes(log, i, status) && log[i].ok }

  ghost predicate Undone(log: seq<Event>) { exists i: nat :: i < |log| && log[i].call.RollBack? }

  /** The events of the transcript, one by one. */
  lemma {:induction false} Places(s: Story)
    ensures var n, log := FirstFailure(s), Transcript(s);
            && |log| == (if n == |SCRIPT| then n else n + 1) + (if IsRolledBack(n) then 2 else 0)
            && (forall i :: 0 <= i < |SCRIPT| && i <= n ==> log[i] == EventAt(s, i))
            && (IsRolledBack(n) ==> log[n + 1] == RollbackEvents(s, n)[0] && log[n + 2] == RollbackEvents(s, n)[1])
  {
    hide FailsAt, ViewAt, Left, AtRollback, AtClosing, RuntimeFor, SnapshotFor, Candidate, FirstFailure, EventAt;
  }

  /** Which calls they are. */
  lemma {:induction false} Calls(s: Story)
    ensures var n, log := FirstFailure(s), Transcript(s);
            && n <= |SCRIPT| == 15
            && |log| == (if n == |SCRIPT| then n else n + 1) + (if IsRolledBack(n) then 2 else 0)
            && (forall i :: 0 <= i < |SCRIPT| && i <= n ==> log[i].call == SCRIPT[i] && (log[i].ok <==> i < n))
            && (IsRolledBack(n) ==> log[n + 1].call.RollBack? && log[n + 2].call.Note? && log[n + 2].call.status == RolledBack)
  {
    hide FailsAt, ViewAt, Left, AtRollback, AtClosing, RuntimeFor, SnapshotFor, Candidate, Transcript;
    Places(s);
  }

  /** The script, by the stages. */
  lemma {:induction false} ScriptAt(i: nat)
    requires i < |SCRIPT|
    ensures |STAGES| == 7 && i / 2 <= 7
    ensures i == 0 ==> SCRIPT[i] == Note(Prepare, Started)
    ensures i % 2 == 1 ==> SCRIPT[i] == Enter(STAGES[i / 2])
    ensures i > 0 && i % 2 == 0 ==> SCRIPT[i] == Note(STAGES[i / 2 - 1], if i == 14 then Committed else Completed)
  {
  }

  /** What a transaction puts on record: it begins with a record that it has
      started; it writes that it has committed exactly if the replacement stands
      and no failure is reported; it asks for a record that it was rolled back
      exactly if it was, and as its last call; no other record is final. */
  lemma {:induction false} RecordsExactly(s: Story)
    ensures var log := Transcript(s);
            && log != [] && log[0].call == Note(Prepare, Started)
            && (forall i :: Notes(log, i, Started) ==> i == 0)
            && (Wrote(log, Committed) <==> Replaces(s) && FirstFailure(s) == |SCRIPT|)
            && ((exists i: nat :: Notes(log, i, Committed)) <==> Replaces(s))
            && ((exists i: nat :: Notes(log, i, RolledBack)) <==> Undone(log))
            && (forall i :: Notes(log, i, Committed) || Notes(log, i, RolledBack) ==> i == |log| - 1)
  {
    hide *;
    var n, log := FirstFailure(s), Transcript(s);
    Calls(s);
    Meanings(s);
    forall i: nat | i < |log| && i <= n && i < |SCRIPT|
      ensures log[i].call == SCRIPT[i] && !SCRIPT[i].RollBack?
      ensures SCRIPT[i].Note? ==> match SCRIPT[i].status { case Started => i == 0 case Completed => true case Committed => i == 14 case RolledBack => false }
    {
      ScriptAt(i);
    }
    ScriptAt(0);
    ScriptAt(14);
    NotesMean(log);
    if Replaces(s) { assert Notes(log, 14, Committed); }
    if IsRolledBack(n) { assert Notes(log, n + 2, RolledBack) && log[n + 1].call.RollBack?; }
  }

  /** A transaction is on record as started. */
  lemma {:induction false} StartedFirst(s: Story, i: nat)
    requires i < |Transcript(s)| && Transcript(s)[i].call.Note? && Transcript(s)[i].ok
    ensures Wrote(Transcript(s), Started)
  {
    hide *;
    Calls(s);
    Meanings(s);
    NotesMean(Transcript(s));
    ScriptAt(0);
    assert Notes(Transcript(s), 0, Started);
  }

  /** A transaction is left on record as started and not ended exactly if the
      record of how it ended could not be written: that it was rolled back, or that
      it had committed. */
  lemma {:induction false} LeftOpenExactly(s: Story)
    ensures Wrote(Transcript(s), Started) && !Wrote(Transcript(s), Committed) && !Wrote(Transcript(s), RolledBack) <==>
            (Undone(Transcript(s)) && s.world.closingFails) || (Replaces(s) && FirstFailure(s) < |SCRIPT|)
  {
    hide *;
    var n, log := FirstFailure(s), Transcript(s);
    Calls(s);
    Meanings(s);
    NotesMean(log);
    RecordsExactly(s);
    ClosingRecord(s);
    if n > 0 { assert Notes(log, 0, Started); }
    if IsRolledBack(n) { assert Notes(log, n + 2, RolledBack) && log[n + 1].call.RollBack?; }
  }

  lemma {:induction false} ClosingRecord(s: Story)
    ensures IsRolledBack(FirstFailure(s)) ==>
              |Transcript(s)| > FirstFailure(s) + 2 && (Transcript(s)[FirstFailure(s) + 2].ok <==> !s.world.closingFails)
  {
    hide FailsAt, ViewAt, Left, AtRollback, AtClosing, RuntimeFor, SnapshotFor, Candidate, FirstFailure, Transcript;
    Places(s);
  }

  lemma {:induction false} Meanings(s: Story)
    ensures Replaces(s) <==> FirstFailure(s) >= 14
    ensures IsRolledBack(FirstFailure(s)) <==> 0 < FirstFailure(s) < 14
  {
    hide FirstFailure;
  }

  lemma {:induction false} NotesMean(log: seq<Event>)
    ensures forall i: nat, status :: Notes(log, i, status) <==> i < |log| && log[i].call.Note? && log[i].call.status == status
    ensures forall status :: Wrote(log, status) <==> exists i: nat :: Notes(log, i, status) && log[i].ok
    ensures Undone(log) <==> exists i: nat :: i < |log| && log[i].call.RollBack?
  {
  }

  /** The stages in the order of the design. */
  const STAGES: seq<Stage> := [Prepare, Quiesce, Snapshot, Migrate, Swap, Health, Commit]

  /** The stages entered, in the order of the calls. */
  function Entered(log: seq<Event>): seq<Stage>
  {
    if log == [] then []
    else
      var last := log[|log| - 1];
      Entered(log[..|log| - 1]) + if last.call.Enter? then [last.call.stage] else []
  }

  /** The stages are entered in their order, one after the other, each but the
      first only after the success of the one before is on record. */
  lemma {:induction false} StagesInOrder(s: Story, i: nat)
    requires i < |Transcript(s)| && Transcript(s)[i].call.Enter?
    ensures var log, k := Transcript(s), |Entered(Transcript(s)[..i])|;
            && k < 7 && Entered(log[..i]) == STAGES[..k] && log[i].call == Enter(STAGES[k])
            && i > 0 && log[i - 1].ok && log[i - 1].call == (if k == 0 then Note(Prepare, Started) else Note(STAGES[k - 1], Completed))
            && (log[i].ok ==> i + 1 < |log| && log[i + 1].call == Note(STAGES[k], if k == 6 then Committed else Completed))
  {
    hide *;
    Calls(s);
    InScript(s, i);
    Meanings(s);
    ScriptAt(i);
    ScriptAt(i - 1);
    if i + 1 < 15 { ScriptAt(i + 1); }
    EnteredUpTo(s, i);
  }

  lemma {:induction false} EnteredUpTo(s: Story, i: nat)
    requires i <= |Transcript(s)| && i <= FirstFailure(s) + 1 && i <= |SCRIPT|
    ensures |STAGES| == 7 && i / 2 <= 7 && Entered(Transcript(s)[..i]) == STAGES[..i / 2]
  {
    hide *;
    Calls(s);
    ScriptAt(0);
    if i == 0 {
      NoneEntered(Transcript(s)[..0]);
    } else {
      EnteredUpTo(s, i - 1);
      ScriptAt(i - 1);
      EnteredMore(Transcript(s), i - 1);
      if i % 2 == 0 { assert STAGES[..i / 2] == STAGES[..i / 2 - 1] + [STAGES[i / 2 - 1]]; }
    }
  }

  lemma {:induction false} NoneEntered(log: seq<Event>)
    requires |log| == 0
    ensures Entered(log) == []
  {
  }

  lemma {:induction false} EnteredMore(log: seq<Event>, i: nat)
    requires i < |log|
    ensures Entered(log[..i + 1]) == Entered(log[..i]) + if log[i].call.Enter? then [log[i].call.stage] else []
  {
    assert log[..i + 1][..i] == log[..i];
  }

  /** Everything works on the same things: on the old runtime, on the one that
      Prepare returned, and with the snapshot that Snapshot returned. */
  lemma {:induction false} SameThings(s: Story, i: nat, j: nat)
    requires i < j < |Transcript(s)| && Transcript(s)[i].ok
    ensures var log := Transcript(s);
            && (log[i].call == Enter(Prepare) && log[j].call in {Enter(Migrate), Enter(Swap), Enter(Health)} ==>
                  log[j].runtime == log[i].runtime == Some(s.next))
            && (log[j].call in {Enter(Quiesce), Enter(Snapshot), Enter(Commit)} || log[j].call.RollBack? ==> log[j].runtime == Some(s.previous))
            && (log[i].call == Enter(Snapshot) && (log[j].call == Enter(Migrate) || log[j].call.RollBack? || log[j].call.Note?) ==>
                  log[j].snapshot == log[i].snapshot)
  {
    hide FailsAt, ViewAt, Left, AtRollback, AtClosing, FirstFailure, Transcript;
    var n, log := FirstFailure(s), Transcript(s);
    Places(s);
  }

  /** The old runtime is told to shut down exactly if Commit is entered, the
      candidate exactly if one was made and does not replace it. */
  lemma {:induction false} ShutDownExactly(s: Story)
    requires s.Ready()
    ensures s.previous in ShutDown(s) <==> exists i: nat :: i < |Transcript(s)| && Transcript(s)[i].call == Enter(Commit)
    ensures s.next in ShutDown(s) <==>
            s.world.made && !Replaces(s) && exists i: nat :: i < |Transcript(s)| && Transcript(s)[i].call == Enter(Prepare)
    ensures ShutDown(s) <= {s.previous, s.next}
  {
    hide FailsAt, ViewAt, Left, AtRollback, AtClosing, RuntimeFor, SnapshotFor, Candidate, FirstFailure, Transcript;
    var n, log := FirstFailure(s), Transcript(s);
    Calls(s);
    if n >= 13 { assert log[13].call == Enter(Commit); }
    if n >= 1 { assert log[1].call == Enter(Prepare); }
    forall i: nat | i < |log| && log[i].call.Enter? ensures i <= n && i < |SCRIPT| { InScript(s, i); }
  }

  /** Before the swap, a rollback finds no call on the candidate. */
  lemma {:induction false} IdleBeforeSwap(s: Story)
    requires s.Ready() && FirstFailure(s) < SWAPPED
    ensures Older(AtRollback(s, FirstFailure(s)), s.next) && s.next !in AtRollback(s, FirstFailure(s)).leases
    ensures AtRollback(s, FirstFailure(s)).Consistent()
  {
    hide Phase, FailsAt, ViewAt, Left, Arrived, Moved;
    var n := FirstFailure(s);
    PhaseAt(s, n);
    FailedPhase(s, n);
    OlderStays(Left(s, n), s.world.undoing, s.next);
    MovedIsTraffic(Left(s, n), s.world.undoing);
  }

  /** A call that fails before the swap leaves the target and admits nobody anew. */
  lemma {:induction false} FailedPhase(s: Story, n: nat)
    requires s.Ready() && n < SWAPPED && Phase(n, ViewAt(s, n), s) && FailsAt(s, n)
    ensures Left(s, n).Consistent() && Older(Left(s, n), s.next) && Left(s, n).target == Some(s.previous)
  {
    hide Quiesced, ViewAt;
    if n == QUIESCED - 1 {
      QuiescedMeans(ViewAt(s, n), s.world.waiting);
      forall x | x in Left(s, n).leases ensures x < s.next { assert Left(s, n).leases[x] <= ViewAt(s, n).leases[x]; }
    }
  }

  /** The nth call fails, and a rollback finds calls on the candidate. */
  ghost predicate Strands(s: Story, n: nat)
  {
    s.Ready() && FirstFailure(s) == n && IsRolledBack(n) && s.next in AtRollback(s, n).leases
  }

  /** A rollback can find calls on the candidate, which it then shuts down,
      exactly if the call that failed came after the swap. */
  lemma {:induction false} StrandsExactly(n: nat)
    ensures (exists s: Story :: Strands(s, n)) <==> SWAPPED <= n < COMMITTED
  {
    hide FailsAt, AtRollback;
    forall s: Story | Strands(s, n) ensures SWAPPED <= n < COMMITTED {
      if n < SWAPPED { IdleBeforeSwap(s); }
    }
    if SWAPPED <= n < COMMITTED {
      StrandingStory(n);
      assert Strands(Stranding(n), n);
    }
  }

  /** One call is admitted between the failure and the rollback. */
  ghost function Stranding(n: nat): Story { Story(OneFailure(n, [Arrive]), View(Some(0), true, 0, false, multiset{}), 0, 1) }

  /** Nobody comes and goes but around the rollback, and only the n-th call fails. */
  function OneFailure(n: nat, undoing: seq<Move>): World
  {
    World(_ => [], [], false, true, i => i == n, None, undoing, false, [], false)
  }

  lemma {:induction false} StrandingStory(n: nat)
    requires SWAPPED <= n < COMMITTED
    ensures Strands(Stranding(n), n)
  {
    hide Phase, FailsAt, Moved;
    var s := Stranding(n);
    OnlyOneFails(n, [Arrive]);
    PhaseAt(s, n);
    ArriveAtRollback(s, n);
  }

  lemma {:induction false} ArriveAtRollback(s: Story, n: nat)
    requires SWAPPED <= n && Phase(n, ViewAt(s, n), s) && s.world.undoing == [Arrive]
    ensures s.next in AtRollback(s, n).leases
  {
    hide ViewAt;
    assert [Arrive][..0] == [];
    assert Moved(Left(s, n), [Arrive]) == Step(Left(s, n), Arrive);
  }

  /** In such a world the transaction fails at n, and at no other call. */
  lemma {:induction false} OnlyOneFails(n: nat, undoing: seq<Move>)
    requires 0 < n < |SCRIPT| && n != QUIESCED - 1 && n != SWAPPED - 1
    ensures FirstFailure(Story(OneFailure(n, undoing), View(Some(0), true, 0, false, multiset{}), 0, 1)) == n
  {
    hide Quiesced;
    var s := Story(OneFailure(n, undoing), View(Some(0), true, 0, false, multiset{}), 0, 1);
    forall i | 0 <= i < |SCRIPT| ensures FailsAt(s, i) <==> i == n {
      if i == QUIESCED - 1 { Quiet(s, i); }
    }
    hide FailsAt;
    assert FailsAt(s, n);
  }

  lemma {:induction false} Quiet(s: Story, i: nat)
    requires i < QUIESCED && (forall j :: s.world.traffic(j) == []) && s.start.inflight == 0
    ensures ViewAt(s, i).inflight == 0
  {
    assert s.world.traffic(i) == [];
    if i > 0 {
      Quiet(s, i - 1);
      assert Arrived(s, i) == Left(s, i - 1) == ViewAt(s, i - 1);
    }
  }

  /** When it is over the router serves the deployed runtime, and calls are out
      only on runtimes that exist. */
  lemma {:induction false} EndsServing(s: Story)
    requires s.Ready()
    ensures EndView(s).Consistent() && EndView(s).Serves(if Replaces(s) then s.next else s.previous)
    ensures Older(EndView(s), Created(s)) && (Replaces(s) ==> Created(s) == s.next + 1)
  {
    hide Phase, FailsAt, ViewAt, Left, Arrived, Moved, Older, OnlyOn, View.Consistent;
    var n := FirstFailure(s);
    if IsRolledBack(n) {
      PhaseAt(s, n);
      RestoredBound(s, n);
      MovedIsTraffic(Restored(s, n), s.world.closing);
      TrafficKeeps(Restored(s, n), AtClosing(s, n));
      OlderStays(Restored(s, n), s.world.closing, Created(s));
    } else {
      var i := if n == 0 then 0 else COMMITTED;
      PhaseAt(s, i);
      WasMade(s);
      PhaseBound(s, i);
    }
  }

  /** Past call 1 a runtime has been made. */
  lemma {:induction false} WasMade(s: Story)
    ensures FirstFailure(s) > 1 ==> s.world.made && Candidate(s) == Some(s.next) && Created(s) == s.next + 1
    ensures FirstFailure(s) == 1 ==> Candidate(s) == None
    ensures s.next <= Created(s)
  {
    assert FirstFailure(s) > 1 ==> !FailsAt(s, 1);
    assert FirstFailure(s) == 1 ==> FailsAt(s, 1);
  }

  lemma {:induction false} PhaseBound(s: Story, i: nat)
    requires s.Ready() && i in {0, COMMITTED} && Phase(i, ViewAt(s, i), s)
    ensures Left(s, i).Consistent() && Left(s, i).Serves(if i == 0 then s.previous else s.next)
    ensures Older(Left(s, i), if i == 0 then s.next else s.next + 1)
  {
    hide ViewAt;
  }

  lemma {:induction false} RestoredBound(s: Story, n: nat)
    requires s.Ready() && IsRolledBack(n) && n == FirstFailure(s) && Phase(n, ViewAt(s, n), s)
    ensures Restored(s, n).Consistent() && Older(Restored(s, n), Created(s)) && s.previous < Created(s)
  {
    hide Phase, FailsAt, ViewAt, Left, Arrived, Moved, Older, OnlyOn;
    WasMade(s);
    if n < SWAPPED {
      IdleBeforeSwap(s);
      OlderThan(AtRollback(s, n), s.next, Created(s));
    } else {
      SwappedLeft(s, n);
      OnlyOnStays(Left(s, n), s.world.undoing, s.next);
      MovedIsTraffic(Left(s, n), s.world.undoing);
      OnlyOnBound(AtRollback(s, n), s.next);
    }
    SameLeases(s, n);
  }

  lemma {:induction false} SwappedLeft(s: Story, n: nat)
    requires SWAPPED <= n && Phase(n, ViewAt(s, n), s)
    ensures Left(s, n).Consistent() && OnlyOn(Left(s, n), s.next) && Left(s, n).target == Some(s.next)
  {
    hide ViewAt;
  }

  lemma {:induction false} OlderThan(v: View, r: Runtime, bound: nat)
    requires Older(v, r) && r <= bound
    ensures Older(v, bound)
  {
  }

  lemma {:induction false} OnlyOnBound(v: View, r: Runtime)
    requires OnlyOn(v, r)
    ensures Older(v, r + 1)
  {
  }

  lemma {:induction false} SameLeases(s: Story, n: nat)
    ensures AtRollback(s, n).Consistent() <==> Restored(s, n).Consistent()
    ensures forall r :: Older(AtRollback(s, n), r) <==> Older(Restored(s, n), r)
    ensures Restored(s, n).Serves(s.previous)
  {
    hide AtRollback;
  }

  /** The runtime that is served in the end has been told to shut down exactly if
      it is Commit that failed: retiring the old runtime is what was rolled back. */
  lemma {:induction false} ServesStoppedExactly(s: Story)
    requires s.Ready()
    ensures (if Replaces(s) then s.next else s.previous) in ShutDown(s) <==> FirstFailure(s) == COMMITTED - 1
  {
    hide FailsAt;
  }

  /** Both of the last two calls can be the one that fails. */
  lemma {:induction false} LateFailures() returns (commit: Story, record: Story)
    ensures commit.Ready() && FirstFailure(commit) == COMMITTED - 1
    ensures record.Ready() && FirstFailure(record) == COMMITTED && Replaces(record)
  {
    OnlyOneFails(COMMITTED - 1, []);
    OnlyOneFails(COMMITTED, []);
    hide FirstFailure;
    commit := Story(OneFailure(COMMITTED - 1, []), View(Some(0), true, 0, false, multiset{}), 0, 1);
    record := Story(OneFailure(COMMITTED, []), View(Some(0), true, 0, false, multiset{}), 0, 1);
  }

  // ------------------------------------------------------------- the algorithm

  /** The script got as far as `last`, or to the call n before it that failed. */
  ghost predicate Through(s: Story, n: nat, last: nat, log: seq<Event>, v: View)
  {
    && n <= last <= |SCRIPT| && (forall i :: 0 <= i < n ==> !FailsAt(s, i)) && (n < last ==> FailsAt(s, n))
    && log == Script(s, if n < last then n + 1 else n)
    && v == if n < last then Left(s, n) else Arrived(s, n)
  }

  /** The script got exactly as far as n. */
  ghost predicate SoFar(s: Story, n: nat, log: seq<Event>, v: View) { Through(s, n, n, log, v) }

  lemma {:induction false} Passed(s: Story, n: nat, last: nat, log: seq<Event>, v: View, ok: bool, e: Event, w: View)
    requires SoFar(s, n, log, v) && n < last <= |SCRIPT| && ok == !FailsAt(s, n) && e == EventAt(s, n) && w == Left(s, n)
    ensures ok ==> SoFar(s, n + 1, log + [e], w)
    ensures !ok ==> Through(s, n, last, log + [e], w)
  {
    hide FailsAt, Left;
  }

  lemma {:induction false} Narrow(s: Story, n: nat, last: nat, end: nat, log: seq<Event>, v: View)
    requires Through(s, n, last, log, v) && last <= end <= |SCRIPT|
    ensures n <= last && (n == last ==> SoFar(s, n, log, v)) && (n < last ==> Through(s, n, end, log, v))
  {
    hide FailsAt, Left, Arrived;
  }

  lemma {:induction false} Arrives(s: Story, n: nat, log: seq<Event>, v: View)
    requires SoFar(s, n, log, v)
    ensures v == Arrived(s, n) && (n > 1 ==> Candidate(s) == Some(s.next))
  {
    hide Arrived, Left;
  }

  lemma {:induction false} Begins(s: Story)
    ensures SoFar(s, 0, [], s.start)
  {
  }

  class LiveController {
    var current: Deployment
    const router: AtomicRuntimeRouter
    var created: Runtime
    ghost var stopped: set<Runtime>

    /** The runtimes are those below `created`. Every one of them other than the
        current one was told to shut down. */
    ghost predicate Valid()
      reads this, router, router.drained
    {
      && router.Valid() && Sound(current.plan) && current.value < created && Older(router.Seen(), created)
      && (forall r :: r in stopped ==> r < created)
      && forall r :: 0 <= r < created && r != current.value ==> r in stopped
    }

    /** Between transactions: the router admits calls, to the current runtime. */
    ghost predicate Steady()
      reads this, router, router.drained
    {
      Valid() && router.Seen().Serves(current.value)
    }

    constructor (plan: Plan, revisions: map<string, string>)
      requires Sound(plan)
      ensures Steady() && current == Deployment(plan, 0, revisions) && created == 1 && stopped == {}
      ensures fresh(router) && router.drained == null && router.Seen() == View(Some(0), true, 0, false, multiset{})
    {
      current, created, stopped := Deployment(plan, 0, revisions), 1, {};
      router := new AtomicRuntimeRouter(Some(0));
    }

    /** A record, or a stage that only the runtimes take part in. */
    method Ask(i: nat, c: Call, runtime: Option<Runtime>, snapshot: Option<nat>, w: World, ghost s: Story) returns (ok: bool, ghost e: Event)
      requires router.Valid() && s.world == w && router.Seen() == Arrived(s, i)
      requires i < |SCRIPT| && SCRIPT[i] == c && i !in {1, QUIESCED - 1, SWAPPED - 1}
      requires runtime == RuntimeFor(s, c) && snapshot == SnapshotFor(s, c)
      modifies router`inflight, router`drained, router`leases, router.drained
      ensures router.Valid() && (router.drained == null || router.drained == old(router.drained))
      ensures router.Seen() == Left(s, i) && ok == !FailsAt(s, i) && e == EventAt(s, i)
    {
      router.Traffic(w.traffic(i));
      ok := !w.fails(i);
      e := Event(c, ok, router.Seen(), runtime, snapshot);
    }

    /** The factory may fail; a runtime that fails to start is shut down. */
    method MakeCandidate(w: World, ghost s: Story) returns (candidate: Option<Runtime>, ghost e: Event)
      requires router.Valid() && s.world == w && s.next == created && router.Seen() == Arrived(s, 1)
      modifies this`created, this`stopped, router`inflight, router`drained, router`leases, router.drained
      ensures router.Valid() && (router.drained == null || router.drained == old(router.drained))
      ensures router.Seen() == Left(s, 1) && candidate == Candidate(s) && e == EventAt(s, 1)
      ensures created == old(created) + if w.made then 1 else 0
      ensures stopped == old(stopped) + if w.made && candidate.None? then {old(created)} else {}
    {
      hide Moved, Left, Arrived;
      FirstCalls(s);
      router.Traffic(w.traffic(1));
      candidate := None;
      if w.made {
        if w.fails(1) { stopped := stopped + {created}; } else { candidate := Some(created); }
        created := created + 1;
      }
      e := Event(Enter(Prepare), candidate.Some?, router.Seen(), candidate, None);
    }

    method QuiesceRouter(previous: Runtime, w: World, ghost s: Story) returns (ok: bool, ghost e: Event)
      requires router.Valid() && s.world == w && previous == s.previous && router.Seen() == Arrived(s, QUIESCED - 1)
      modifies router, router.drained
      ensures router.Valid() && (router.drained == null || router.drained == old(router.drained) || fresh(router.drained))
      ensures router.Seen() == Left(s, QUIESCED - 1) && ok == !FailsAt(s, QUIESCED - 1) && e == EventAt(s, QUIESCED - 1)
    {
      hide Quiesced, Moved;
      router.Traffic(w.traffic(3));
      ghost var v := router.Seen();
      ok := router.Quiesce(w.waiting, w.givenUp);
      e := Event(Enter(Quiesce), ok, v, Some(previous), None);
    }

    /** New calls go to the candidate. */
    method ActivateCandidate(candidate: Runtime, w: World, ghost s: Story) returns (ghost e: Event)
      requires router.Valid() && s.world == w && candidate == s.next && Candidate(s) == Some(candidate)
      requires router.Seen() == Arrived(s, SWAPPED - 1)
      modifies router`inflight, router`drained, router`leases, router`target, router`accepting, router.drained
      ensures router.Valid() && (router.drained == null || router.drained == old(router.drained))
      ensures router.Seen() == Left(s, SWAPPED - 1) && !FailsAt(s, SWAPPED - 1) && e == EventAt(s, SWAPPED - 1)
    {
      hide Moved;
      router.Traffic(w.traffic(9));
      e := Event(Enter(Swap), true, router.Seen(), Some(candidate), None);
      router.Activate(Some(candidate));
    }

    /** Back to the old runtime; the candidate, if there is one, is shut down,
        whatever calls it may still be serving. */
    method Undo(n: nat, previous: Runtime, candidate: Option<Runtime>, snapshot: Option<nat>, w: World, ghost s: Story)
      returns (ghost more: seq<Event>)
      requires router.Valid() && s.world == w && previous == s.previous && candidate == Candidate(s)
      requires n < |SCRIPT| && snapshot == SnapshotFor(s, RollBack(SCRIPT[n].stage)) && router.Seen() == Left(s, n)
      modifies this`stopped, router`inflight, router`drained, router`leases, router`target, router`accepting, router.drained
      ensures router.Valid() && (router.drained == null || router.drained == old(router.drained))
      ensures router.Seen() == AtClosing(s, n) && more == RollbackEvents(s, n)
      ensures stopped == old(stopped) + if candidate.Some? then {candidate.value} else {}
    {
      hide Moved, Left, FailsAt;
      router.Traffic(w.undoing);
      ghost var undo := Event(RollBack(SCRIPT[n].stage), !w.undoFails || candidate.None?, router.Seen(), Some(previous), snapshot);
      router.Activate(Some(previous));
      if candidate.Some? { stopped := stopped + {candidate.value}; }
      router.Traffic(w.closing);
      more := [undo, Event(Note(SCRIPT[n].stage, RolledBack), !w.closingFails, router.Seen(), None, snapshot)];
    }

    /** Start record, Prepare, record. */
    method PrepareStage(w: World, ghost s: Story) returns (candidate: Option<Runtime>, n: nat, ghost log: seq<Event>)
      requires router.Valid() && s.world == w && router.Seen() == s.start && s.next == created
      modifies this`created, this`stopped, router`inflight, router`drained, router`leases, router.drained
      ensures router.Valid() && (router.drained == null || router.drained == old(router.drained))
      ensures Through(s, n, 3, log, router.Seen()) && (n > 0 ==> candidate == Candidate(s)) && (n == 0 ==> candidate == None)
      ensures created == old(created) + if n > 0 && w.made then 1 else 0
      ensures stopped == old(stopped) + if n == 1 && w.made then {old(created)} else {}
    {
      hide Through, FailsAt, Left, Arrived, ViewAt, EventAt, RuntimeFor, SnapshotFor, Candidate, Moved;
      var ok; ghost var e; ghost var v := router.Seen();
      Begins(s);
      candidate, n, log := None, 0, [];
      Arrives(s, 0, log, v);
      CallArguments(s);
      ok, e := Ask(0, Note(Prepare, Started), None, None, w, s);
      Passed(s, 0, 3, log, v, ok, e, router.Seen());
      log, v := log + [e], router.Seen();
      if !ok { return; }
      Arrives(s, 1, log, v);
      candidate, e := MakeCandidate(w, s);
      n := 1;
      Passed(s, 1, 3, log, v, candidate.Some?, e, router.Seen());
      log, v := log + [e], router.Seen();
      if candidate.None? { return; }
      Arrives(s, 2, log, v);
      n := 2;
      ok, e := Ask(2, Note(Prepare, Completed), None, None, w, s);
      Passed(s, 2, 3, log, v, ok, e, router.Seen());
      log := log + [e];
      if ok { n := 3; }
    }

    /** Quiesce, record. */
    method QuiesceStage(previous: Runtime, w: World, ghost s: Story, ghost log0: seq<Event>) returns (n: nat, ghost log: seq<Event>)
      requires router.Valid() && s.world == w && SoFar(s, 3, log0, router.Seen())
      requires previous == s.previous
      modifies router, router.drained
      ensures router.Valid() && (router.drained == null || router.drained == old(router.drained) || fresh(router.drained))
      ensures n >= 3 && Through(s, n, 5, log, router.Seen())
    {
      hide Through, FailsAt, Left, Arrived, ViewAt, EventAt, RuntimeFor, SnapshotFor, Candidate, Moved;
      var ok; ghost var e; ghost var v := router.Seen();
      n, log := 3, log0;
      Arrives(s, 3, log, v);
      CallArguments(s);
      ok, e := QuiesceRouter(previous, w, s);
      Passed(s, 3, 5, log, v, ok, e, router.Seen());
      log, v := log + [e], router.Seen();
      if !ok { return; }
      n := 4;
      Arrives(s, 4, log, v);
      ok, e := Ask(4, Note(Quiesce, Completed), None, None, w, s);
      Passed(s, 4, 5, log, v, ok, e, router.Seen());
      log := log + [e];
      if ok { n := 5; }
    }

    /** Snapshot, record. */
    method SnapshotStage(previous: Runtime, w: World, ghost s: Story, ghost log0: seq<Event>) returns (n: nat, ghost log: seq<Event>)
      requires router.Valid() && s.world == w && SoFar(s, 5, log0, router.Seen())
      requires previous == s.previous
      modifies router`inflight, router`drained, router`leases, router.drained
      ensures router.Valid() && (router.drained == null || router.drained == old(router.drained))
      ensures n >= 5 && Through(s, n, 7, log, router.Seen())
    {
      hide Through, FailsAt, Left, Arrived, ViewAt, EventAt, RuntimeFor, SnapshotFor, Candidate, Moved;
      var ok; ghost var e; ghost var v := router.Seen();
      n, log := 5, log0;
      Arrives(s, 5, log, v);
      CallArguments(s);
      ok, e := Ask(5, Enter(Snapshot), Some(previous), w.snapshot, w, s);
      Passed(s, 5, 7, log, v, ok, e, router.Seen());
      log, v := log + [e], router.Seen();
      if !ok { return; }
      n := 6;
      Arrives(s, 6, log, v);
      ok, e := Ask(6, Note(Snapshot, Completed), None, w.snapshot, w, s);
      Passed(s, 6, 7, log, v, ok, e, router.Seen());
      log := log + [e];
      if ok { n := 7; }
    }

    /** Migrate, record. */
    method MigrateStage(candidate: Option<Runtime>, snapshot: Option<nat>, w: World, ghost s: Story, ghost log0: seq<Event>) returns (n: nat, ghost log: seq<Event>)
      requires router.Valid() && s.world == w && SoFar(s, 7, log0, router.Seen())
      requires candidate == Candidate(s) && snapshot == w.snapshot
      modifies router`inflight, router`drained, router`leases, router.drained
      ensures router.Valid() && (router.drained == null || router.drained == old(router.drained))
      ensures n >= 7 && Through(s, n, 9, log, router.Seen())
    {
      hide Through, FailsAt, Left, Arrived, ViewAt, EventAt, RuntimeFor, SnapshotFor, Candidate, Moved;
      var ok; ghost var e; ghost var v := router.Seen();
      n, log := 7, log0;
      Arrives(s, 7, log, v);
      CallArguments(s);
      ok, e := Ask(7, Enter(Migrate), candidate, snapshot, w, s);
      Passed(s, 7, 9, log, v, ok, e, router.Seen());
      log, v := log + [e], router.Seen();
      if !ok { return; }
      n := 8;
      Arrives(s, 8, log, v);
      ok, e := Ask(8, Note(Migrate, Completed), None, snapshot, w, s);
      Passed(s, 8, 9, log, v, ok, e, router.Seen());
      log := log + [e];
      if ok { n := 9; }
    }

    /** Swap, record. */
    method SwapStage(candidate: Runtime, snapshot: Option<nat>, w: World, ghost s: Story, ghost log0: seq<Event>) returns (n: nat, ghost log: seq<Event>)
      requires router.Valid() && s.world == w && SoFar(s, 9, log0, router.Seen())
      requires Some(candidate) == Candidate(s) && snapshot == w.snapshot
      modifies router`inflight, router`drained, router`leases, router`target, router`accepting, router.drained
      ensures router.Valid() && (router.drained == null || router.drained == old(router.drained))
      ensures n >= 9 && Through(s, n, 11, log, router.Seen())
    {
      hide Through, FailsAt, Left, Arrived, ViewAt, EventAt, RuntimeFor, SnapshotFor, Candidate, Moved;
      var ok; ghost var e; ghost var v := router.Seen();
      n, log := 9, log0;
      Arrives(s, 9, log, v);
      CallArguments(s);
      ok := true;
      e := ActivateCandidate(candidate, w, s);
      Passed(s, 9, 11, log, v, ok, e, router.Seen());
      log, v := log + [e], router.Seen();
      if !ok { return; }
      n := 10;
      Arrives(s, 10, log, v);
      ok, e := Ask(10, Note(Swap, Completed), None, snapshot, w, s);
      Passed(s, 10, 11, log, v, ok, e, router.Seen());
      log := log + [e];
      if ok { n := 11; }
    }

    /** Health, record. */
    method HealthStage(candidate: Option<Runtime>, snapshot: Option<nat>, w: World, ghost s: Story, ghost log0: seq<Event>) returns (n: nat, ghost log: seq<Event>)
      requires router.Valid() && s.world == w && SoFar(s, 11, log0, router.Seen())
      requires candidate == Candidate(s) && snapshot == w.snapshot
      modifies router`inflight, router`drained, router`leases, router.drained
      ensures router.Valid() && (router.drained == null || router.drained == old(router.drained))
      ensures n >= 11 && Through(s, n, 13, log, router.Seen())
    {
      hide Through, FailsAt, Left, Arrived, ViewAt, EventAt, RuntimeFor, SnapshotFor, Candidate, Moved;
      var ok; ghost var e; ghost var v := router.Seen();
      n, log := 11, log0;
      Arrives(s, 11, log, v);
      CallArguments(s);
      ok, e := Ask(11, Enter(Health), candidate, None, w, s);
      Passed(s, 11, 13, log, v, ok, e, router.Seen());
      log, v := log + [e], router.Seen();
      if !ok { return; }
      n := 12;
      Arrives(s, 12, log, v);
      ok, e := Ask(12, Note(Health, Completed), None, snapshot, w, s);
      Passed(s, 12, 13, log, v, ok, e, router.Seen());
      log := log + [e];
      if ok { n := 13; }
    }

    /** Commit retires the old runtime; once that succeeds the replacement stands, whatever its record does. */
    method CommitStage(desired: Deployment, snapshot: Option<nat>, w: World, ghost s: Story, ghost log0: seq<Event>) returns (n: nat, ghost log: seq<Event>)
      requires router.Valid() && s.world == w && SoFar(s, 13, log0, router.Seen())
      requires snapshot == w.snapshot && s.previous == current.value
      modifies this`current, this`stopped, router`inflight, router`drained, router`leases, router.drained
      ensures router.Valid() && (router.drained == null || router.drained == old(router.drained))
      ensures n >= 13 && Through(s, n, 15, log, router.Seen())
      ensures stopped == old(stopped) + {old(current.value)} && current == if n >= COMMITTED then desired else old(current)
    {
      hide Through, FailsAt, Left, Arrived, ViewAt, EventAt, RuntimeFor, SnapshotFor, Candidate, Moved;
      var ok; ghost var e; ghost var v := router.Seen();
      n, log := 13, log0;
      Arrives(s, 13, log, v);
      CallArguments(s);
      stopped := stopped + {current.value};
      ok, e := Ask(13, Enter(Commit), Some(current.value), None, w, s);
      Passed(s, 13, 15, log, v, ok, e, router.Seen());
      log, v := log + [e], router.Seen();
      if !ok { return; }
      n := 14;
      Arrives(s, 14, log, v);
      current := desired;
      ok, e := Ask(14, Note(Commit, Committed), None, snapshot, w, s);
      Passed(s, 14, 15, log, v, ok, e, router.Seen());
      log := log + [e];
      if ok { n := 15; }
    }

    /** The stages before the swap, up to the first call that fails. */
    method Approach(w: World, ghost s: Story)
      returns (candidate: Option<Runtime>, snapshot: Option<nat>, n: nat, ghost log: seq<Event>)
      requires router.Valid() && s == Story(w, router.Seen(), current.value, created)
      modifies this`created, this`stopped, router, router.drained
      ensures router.Valid() && (router.drained == null || router.drained == old(router.drained) || fresh(router.drained))
      ensures Through(s, n, 9, log, router.Seen()) && (n > 0 ==> candidate == Candidate(s))
      ensures snapshot == if n < 5 then None else w.snapshot
      ensures created == old(created) + if n > 0 && w.made then 1 else 0
      ensures stopped == old(stopped) + if n == 1 && w.made then {s.next} else {}
    {
      hide Through, FailsAt, Left, Arrived, ViewAt, EventAt, RuntimeFor, SnapshotFor, Candidate, Moved;
      var previous := current.value;
      snapshot := None;
      candidate, n, log := PrepareStage(w, s);
      Narrow(s, n, 3, 9, log, router.Seen());
      if n < 3 { return; }
      n, log := QuiesceStage(previous, w, s, log);
      Narrow(s, n, 5, 9, log, router.Seen());
      if n < 5 { return; }
      snapshot := w.snapshot;
      n, log := SnapshotStage(previous, w, s, log);
      Narrow(s, n, 7, 9, log, router.Seen());
      if n < 7 { return; }
      n, log := MigrateStage(candidate, snapshot, w, s, log);
    }

    /** The seven stages, up to the first call that fails. */
    method Attempt(desired: Plan, revisions: map<string, string>, w: World, ghost s: Story)
      returns (candidate: Option<Runtime>, snapshot: Option<nat>, n: nat, ghost log: seq<Event>)
      requires router.Valid() && s == Story(w, router.Seen(), current.value, created)
      modifies this`current, this`created, this`stopped, router, router.drained
      ensures router.Valid() && (router.drained == null || router.drained == old(router.drained) || fresh(router.drained))
      ensures Through(s, n, |SCRIPT|, log, router.Seen()) && (n > 0 ==> candidate == Candidate(s))
      ensures snapshot == if n < 5 then None else w.snapshot
      ensures created == old(created) + if n > 0 && w.made then 1 else 0
      ensures current == if n >= COMMITTED then Deployment(desired, old(created), revisions) else old(current)
      ensures stopped == old(stopped) + (if n >= COMMITTED - 1 then {s.previous} else {}) + (if n == 1 && w.made then {s.next} else {})
    {
      hide Through, FailsAt, Left, Arrived, ViewAt, EventAt, RuntimeFor, SnapshotFor, Candidate, Moved;
      candidate, snapshot, n, log := Approach(w, s);
      Narrow(s, n, 9, |SCRIPT|, log, router.Seen());
      if n < 9 { return; }
      Arrives(s, 9, log, router.Seen());
      n, log := SwapStage(candidate.value, snapshot, w, s, log);
      Narrow(s, n, 11, |SCRIPT|, log, router.Seen());
      if n < 11 { return; }
      n, log := HealthStage(candidate, snapshot, w, s, log);
      Narrow(s, n, 13, |SCRIPT|, log, router.Seen());
      if n < 13 { return; }
      n, log := CommitStage(Deployment(desired, candidate.value, revisions), snapshot, w, s, log);
    }

    /** One transaction, as the specification tells it from the world it meets:
        its calls, the router it leaves, who is deployed, who was told to shut
        down, and whether it is reported as failed. */
    method Transact(desired: Plan, revisions: map<string, string>, w: World) returns (failed: bool, ghost log: seq<Event>)
      requires Steady() && Sound(desired)
      modifies this`current, this`created, this`stopped, router, router.drained
      ensures Steady()
      ensures var s := Story(w, old(router.Seen()), old(current.value), old(created));
              && s.Ready() && log == Transcript(s) && router.Seen() == EndView(s) && (failed <==> FirstFailure(s) < |SCRIPT|)
              && current == (if Replaces(s) then Deployment(desired, old(created), revisions) else old(current))
              && stopped == old(stopped) + ShutDown(s) && created == Created(s)
    {
      hide Through, FailsAt, Left, Arrived, ViewAt, EventAt, RuntimeFor, SnapshotFor, Candidate, Moved, Sound, Older;
      hide RollbackEvents, AtClosing, Script, Transcript, EndView, ShutDown, Created, Replaces, FirstFailure, Story.Ready, View.Serves;
      ghost var s := Story(w, router.Seen(), current.value, created);
      StoryReady(s);
      var previous := current.value;
      var candidate, snapshot, n;
      candidate, snapshot, n, log := Attempt(desired, revisions, w, s);
      ThroughEnds(s, n, log, router.Seen());
      EndsServing(s);
      WasMade(s);
      Outcome(s, n, candidate);
      OthersStopped(s, old(stopped));
      if 0 < n < COMMITTED {
        GivenSnapshot(s, n);
        ghost var more := Undo(n, previous, candidate, snapshot, w, s);
        log := log + more;
      }
      failed := n < |SCRIPT|;
    }

    /** Builds the desired graph, compares it with the current one and, if there
        is a difference, runs the transaction. */
    method Reconcile(modules: seq<Module>, w: World) returns (changes: Option<ChangeSet>, failed: bool, ghost log: seq<Event>)
      requires Steady()
      modifies this`current, this`created, this`stopped, router, router.drained
      ensures Steady() && old(created) <= created
      ensures changes.None? <==> !Plannable(ItemsOf(modules))
      ensures changes.None? || NoChange(changes.value) ==>
        && log == [] && router.Seen() == old(router.Seen()) && (failed <==> changes.None?)
        && current == old(current) && created == old(created) && stopped == old(stopped)
      ensures changes.Some? ==> exists desired ::
        && Describes(ItemsOf(modules), desired)
        && Reports(Change(old(current.plan), desired, old(current.revisions), RevisionsOf(modules)), changes.value)
        && (!NoChange(changes.value) ==>
              var s := Story(w, old(router.Seen()), old(current.value), old(created));
              && s.Ready() && log == Transcript(s) && router.Seen() == EndView(s) && (failed <==> FirstFailure(s) < |SCRIPT|)
              && current == (if Replaces(s) then Deployment(desired, old(created), RevisionsOf(modules)) else old(current))
              && stopped == old(stopped) + ShutDown(s) && created == Created(s))
    {
      hide WellFormed, Acyclic, GraphOf, Describes, Reports, Sound, Transcript, EndView, FirstFailure, ShutDown, Routing.View.Consistent;
      log := [];
      var items, revisions := Inputs(modules);
      var built := Build(items);
      if built.Err? { return None, true, log; }
      BuiltIsSound(items, built.plan);
      var change := Change(current.plan, built.plan, current.revisions, revisions);
      SoundlyChanged(change);
      var c := Diff(change);
      changes := Some(c);
      if |c.added| + |c.updated| + |c.removed| == 0 { return changes, false, log; }
      failed, log := Transact(built.plan, revisions, w);
    }

    method Inputs(modules: seq<Module>) returns (items: seq<Item>, revisions: map<string, string>)
      ensures items == ItemsOf(modules) && revisions == RevisionsOf(modules)
    {
      items, revisions := [], map[];
      for i := 0 to |modules|
        invariant items == ItemsOf(modules[..i]) && revisions == RevisionsOf(modules[..i])
      {
        assert modules[..i + 1][..i] == modules[..i];
        items := items + [Item(modules[i].id, modules[i].dependsOn)];
        revisions := revisions[modules[i].id := modules[i].revision];
      }
      assert modules[..|modules|] == modules;
    }
  }

  lemma {:induction false} SoundlyChanged(c: Change)
    requires Sound(c.previous) && Sound(c.next)
    ensures SoundChange(c)
  {
  }

  lemma {:induction false} FirstCalls(s: Story)
    ensures ViewAt(s, 1) == Moved(Arrived(s, 1), s.world.traffic(1)) && Left(s, 1) == ViewAt(s, 1)
  {
  }

  /** What is left to tell once it is known which call failed first. */
  lemma {:induction false} Outcome(s: Story, n: nat, candidate: Option<Runtime>)
    requires n == FirstFailure(s) && (n > 0 ==> candidate == Candidate(s))
    ensures Replaces(s) <==> n >= COMMITTED
    ensures Created(s) == s.next + if n > 0 && s.world.made then 1 else 0
    ensures ShutDown(s) == (if n >= COMMITTED - 1 then {s.previous} else {}) + (if n == 1 && s.world.made then {s.next} else {})
                           + (if IsRolledBack(n) && candidate.Some? then {candidate.value} else {})
    ensures Transcript(s) == if n == |SCRIPT| then Script(s, n) else Script(s, n + 1) + if IsRolledBack(n) then RollbackEvents(s, n) else []
    ensures EndView(s) == if IsRolledBack(n) then AtClosing(s, n) else Left(s, if n == 0 then 0 else COMMITTED)
    ensures n < |SCRIPT| && !IsRolledBack(n) ==> Script(s, n + 1) + [] == Script(s, n + 1)
  {
    hide FirstFailure, FailsAt, Left, Script, RollbackEvents, AtClosing;
    FirstFails(s);
  }

  lemma {:induction false} FirstFails(s: Story)
    ensures FirstFailure(s) == 1 ==> FailsAt(s, 1)
    ensures FirstFailure(s) > 1 ==> !FailsAt(s, 1) && s.world.made
  {
    hide ViewAt, Left;
    assert FirstFailure(s) > 1 ==> !FailsAt(s, 1);
  }

  /** Nobody but the runtime that is served is left running. */
  lemma {:induction false} OthersStopped(s: Story, stopped: set<Runtime>)
    requires s.previous < s.next && forall r :: 0 <= r < s.next && r != s.previous ==> r in stopped
    requires forall r :: r in stopped ==> r < s.next
    ensures forall r :: 0 <= r < Created(s) && r != (if Replaces(s) then s.next else s.previous) ==> r in stopped + ShutDown(s)
    ensures forall r :: r in stopped + ShutDown(s) ==> r < Created(s)
    ensures (if Replaces(s) then s.next else s.previous) < Created(s)
  {
    hide FirstFailure;
    FirstFails(s);
  }

  lemma {:induction false} StoryReady(s: Story)
    requires s.start.Consistent() && s.start.Serves(s.previous) && s.previous < s.next && Older(s.start, s.next)
    ensures s.Ready()
  {
  }

  /** Which calls are made on whom, with what. */
  lemma {:induction false} CallArguments(s: Story)
    ensures forall i :: 0 <= i < |SCRIPT| && SCRIPT[i].Note? ==> RuntimeFor(s, SCRIPT[i]) == None
    ensures forall i :: 0 <= i < 5 ==> SnapshotFor(s, SCRIPT[i]) == None
    ensures RuntimeFor(s, SCRIPT[5]) == Some(s.previous) && RuntimeFor(s, SCRIPT[13]) == Some(s.previous)
    ensures RuntimeFor(s, SCRIPT[7]) == Candidate(s) && RuntimeFor(s, SCRIPT[11]) == Candidate(s)
    ensures SnapshotFor(s, SCRIPT[11]) == None && SnapshotFor(s, SCRIPT[13]) == None
    ensures forall i :: i in {5, 6, 7, 8, 10, 12, 14} ==> SnapshotFor(s, SCRIPT[i]) == s.world.snapshot
    ensures Candidate(s) == if FailsAt(s, 1) then None else Some(s.next)
  {
    hide FailsAt;
  }

  /** The rollback of a call is given the snapshot that had been taken. */
  lemma {:induction false} GivenSnapshot(s: Story, n: nat)
    requires n < |SCRIPT|
    ensures SnapshotFor(s, RollBack(SCRIPT[n].stage)) == if n < 5 then None else s.world.snapshot
  {
  }

  lemma {:induction false} ThroughEnds(s: Story, n: nat, log: seq<Event>, v: View)
    requires Through(s, n, |SCRIPT|, log, v)
    ensures FirstFailure(s) == n && log == (if n == |SCRIPT| then Script(s, n) else Script(s, n + 1))
    ensures n < |SCRIPT| ==> v == Left(s, n)
    ensures n == |SCRIPT| ==> v == Left(s, COMMITTED)
  {
    hide FailsAt, Left;
  }

  /** A transaction that ends in a rollback with a call left on the candidate,
      which has been told to shut down, for every call after the swap that can fail. */
  method StrandedCall(plan: Plan, n: nat) returns (c: LiveController, failed: bool)
    requires Sound(plan) && SWAPPED <= n < COMMITTED
    ensures fresh(c) && c.Steady() && failed && c.current.value == 0 && 1 in c.router.leases && 1 in c.stopped
  {
    hide Sound, ViewAt, Left, FailsAt, Moved;
    c := new LiveController(plan, map[]);
    StrandingStory(n);
    NothingCloses(Stranding(n), n);
    ghost var log;
    failed, log := c.Transact(plan, map[], OneFailure(n, [Arrive]));
  }

  lemma {:induction false} NothingCloses(s: Story, n: nat)
    requires s.world.closing == []
    ensures AtClosing(s, n).leases == AtRollback(s, n).leases
  {
    hide AtRollback;
  }
}
