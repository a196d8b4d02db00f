/** The admission router that makes a live swap possible. */
module Routing {
  import opened Text

  /** A running application, by the number under which it was created. */
  type Runtime = nat

  /** A channel used only to be closed; closing it twice is a fault. */
  class Signal {
    var closed: bool

    constructor ()
      ensures !closed
    {
      closed := false;
    }

    method Close()
      requires !closed
      modifies this
      ensures closed
    {
      closed := true;
    }
  }

  /** What can be seen of the router at one moment. */
  datatype View = View(target: Option<Runtime>, accepting: bool, inflight: nat, pending: bool, leases: multiset<Runtime>)
  {
    ghost predicate Consistent() { inflight == |leases| && (pending ==> inflight > 0) }

    /** Admission is closed and every admitted call has returned. */
    ghost predicate Drained() { !accepting && leases == multiset{} && inflight == 0 && !pending }

    /** Admitting calls to r. */
    ghost predicate Serves(r: Runtime) { accepting && target == Some(r) }
  }

  /** A call arrives, or a call admitted to the runtime returns. */
  datatype Move = Arrive | Return(runtime: Runtime)

  /** Only an open router with a target admits; only a call that is out returns;
      the last one out ends a pending drain. */
  function Step(v: View, m: Move): View
  {
    match m
    case Arrive =>
      if v.accepting && v.target.Some? then v.(inflight := v.inflight + 1, leases := v.leases + multiset{v.target.value}) else v
    case Return(r) =>
      if r in v.leases && v.inflight > 0
      then v.(inflight := v.inflight - 1, leases := v.leases - multiset{r}, pending := v.pending && v.inflight > 1)
      else v
  }

  /** What calls that come and go make of the router. */
  function Moved(v: View, moves: seq<Move>): View
  {
    if moves == [] then v else Step(Moved(v, moves[..|moves| - 1]), moves[|moves| - 1])
  }

  /** What Quiesce makes of it, given who comes and goes while it waits. */
  function Quiesced(v: View, waiting: seq<Move>): View
  {
    if v.inflight == 0 then v.(accepting := false) else Moved(v.(accepting := false, pending := true), waiting)
  }

  // ------------------------------------------------------------ facts about traffic

  /** What any number of calls that come and go can do: they never touch the
      target or the admission flag, nobody is admitted but to the target, and
      nobody at all while admission is closed. A drain that was pending has ended
      exactly if, with admission closed, nobody is left. */
  ghost predicate OnlyTraffic(before: View, after: View)
  {
    && after.Consistent() && after.target == before.target && after.accepting == before.accepting
    && (after.pending ==> before.pending)
    && (forall r :: after.leases[r] > before.leases[r] ==> before.Serves(r))
    && (!before.accepting && before.pending ==> (after.pending <==> after.inflight > 0))
  }

  lemma {:induction false} MovedIsTraffic(v: View, moves: seq<Move>)
    requires v.Consistent()
    ensures OnlyTraffic(v, Moved(v, moves))
  {
    if moves != [] {
      hide OnlyTraffic, Step;
      var before := Moved(v, moves[..|moves| - 1]);
      MovedIsTraffic(v, moves[..|moves| - 1]);
      TrafficKeeps(v, before);
      StepIsTraffic(before, moves[|moves| - 1]);
      MoreTraffic(v, before, Moved(v, moves));
    } else {
      NoTraffic(v);
    }
  }

  lemma {:induction false} NoTraffic(v: View)
    requires v.Consistent()
    ensures OnlyTraffic(v, v)
  {
  }

  lemma {:induction false} StepIsTraffic(v: View, m: Move)
    requires v.Consistent()
    ensures OnlyTraffic(v, Step(v, m))
  {
  }

  lemma {:induction false} TrafficKeeps(before: View, after: View)
    requires OnlyTraffic(before, after)
    ensures after.Consistent() && after.target == before.target && after.accepting == before.accepting
  {
  }

  /** Traffic composes. */
  lemma {:induction false} MoreTraffic(a: View, b: View, c: View)
    requires OnlyTraffic(a, b) && OnlyTraffic(b, c)
    ensures OnlyTraffic(a, c)
  {
    forall r | c.leases[r] > a.leases[r] ensures a.Serves(r) {
      assert c.leases[r] > b.leases[r] || b.leases[r] > a.leases[r];
    }
    ShutStaysShut(b, c);
  }

  /** With admission closed and nobody left, nobody comes. */
  lemma {:induction false} ShutStaysShut(before: View, after: View)
    requires OnlyTraffic(before, after)
    ensures !before.accepting && before.Consistent() && before.inflight == 0 ==> after.inflight == 0
  {
    if !before.accepting && before.Consistent() && before.inflight == 0 {
      assert before.leases == multiset{};
      assert after.leases == multiset{};
    }
  }

  /** A closed, drained router stays so whatever traffic there is. */
  lemma {:induction false} StaysDrained(before: View, after: View)
    requires before.Drained() && OnlyTraffic(before, after)
    ensures after == before
  {
    assert after.leases == multiset{};
  }

  /** A runtime that is not the target gets no new call. */
  lemma {:induction false} StaysFree(before: View, after: View, r: Runtime)
    requires OnlyTraffic(before, after) && r !in before.leases && before.target != Some(r)
    ensures r !in after.leases
  {
    assert before.leases[r] == 0;
    assert after.leases[r] > before.leases[r] ==> before.Serves(r);
  }

  /** Quiesce admits nobody, and succeeds only on a drained router. */
  lemma {:induction false} QuiescedMeans(v: View, waiting: seq<Move>)
    requires v.Consistent()
    ensures var q := Quiesced(v, waiting);
            && q.Consistent() && !q.accepting && q.target == v.target && (forall r :: q.leases[r] <= v.leases[r])
            && (q.Drained() <==> q.inflight == 0) && (q.pending <==> q.inflight > 0)
  {
    hide Moved;
    if v.inflight == 0 {
      assert v.leases == multiset{};
    } else {
      var shut := v.(accepting := false, pending := true);
      MovedIsTraffic(shut, waiting);
      var q := Moved(shut, waiting);
      forall r ensures q.leases[r] <= v.leases[r] { assert !(q.leases[r] > shut.leases[r]); }
      assert q.inflight == 0 ==> q.leases == multiset{};
    }
  }

  class AtomicRuntimeRouter {
    var target: Option<Runtime>
    var accepting: bool
    var inflight: nat
    var drained: Signal?
    /** The leases that are out; in the source their holders have them. */
    var leases: multiset<Runtime>

    /** inflight counts the leases; a pending drain has somebody to wait for
        and has not been signalled. */
    ghost predicate Valid()
      reads this, drained
    {
      inflight == |leases| && (drained != null ==> !drained.closed && inflight > 0)
    }

    ghost function Seen(): View
      reads this
    {
      View(target, accepting, inflight, drained != null, leases)
    }

    constructor (target: Option<Runtime>)
      ensures Valid() && Seen() == View(target, true, 0, false, multiset{}) && drained == null
    {
      this.target, accepting, inflight, drained, leases := target, true, 0, null, multiset{};
    }

    /** Admits a call to the present target, if there is one and admission is open. */
    method Acquire() returns (lease: Option<Runtime>)
      requires Valid()
      modifies this`inflight, this`leases
      ensures Valid()
      ensures lease == if accepting then target else None
      ensures Seen() == match lease
                        case None => old(Seen())
                        case Some(r) => old(Seen()).(inflight := old(inflight) + 1, leases := old(leases) + multiset{r})
    {
      if !accepting || target.None? { return None; }
      inflight := inflight + 1;
      leases := leases + multiset{target.value};
      return target;
    }

    /** Returns one lease; the last one out signals the pending drain. */
    method Release(lease: Runtime)
      requires Valid() && lease in leases
      modifies this`inflight, this`drained, this`leases, drained
      ensures Valid()
      ensures Seen() == old(Seen()).(inflight := old(inflight) - 1, leases := old(leases) - multiset{lease},
                                     pending := old(drained) != null && old(inflight) > 1)
      ensures drained == null || drained == old(drained)
      ensures old(drained) != null ==> (old(drained).closed <==> drained == null)
    {
      inflight := inflight - 1;
      leases := leases - multiset{lease};
      if inflight == 0 && drained != null {
        drained.Close();
        drained := null;
      }
    }

    /** One call arrives, or one admitted call returns. */
    method Move(m: Move)
      requires Valid()
      modifies this`inflight, this`drained, this`leases, drained
      ensures Valid() && Seen() == Step(old(Seen()), m)
      ensures drained == null || drained == old(drained)
      ensures old(drained) != null ==> (old(drained).closed <==> drained == null)
    {
      match m
      case Arrive => var _ := Acquire();
      case Return(r) =>
        if r in leases { Release(r); }
    }

    /** Calls come and go for a while. */
    method Traffic(moves: seq<Move>)
      requires Valid()
      modifies this`inflight, this`drained, this`leases, drained
      ensures Valid() && Seen() == Moved(old(Seen()), moves)
      ensures drained == null || drained == old(drained)
      ensures old(drained) != null ==> (old(drained).closed <==> drained == null)
    {
      hide Step;
      for i := 0 to |moves|
        invariant Valid() && Seen() == Moved(old(Seen()), moves[..i])
        invariant drained == null || drained == old(drained)
        invariant old(drained) != null ==> (old(drained).closed <==> drained == null)
      {
        assert moves[..i + 1][..i] == moves[..i];
        Move(moves[i]);
      }
      assert moves[..|moves|] == moves;
    }

    /** Closes admission and waits for the admitted calls, unless the wait is
        given up. A wait that was given up leaves its drain pending. */
    method Quiesce(waiting: seq<Move>, givenUp: bool) returns (ok: bool)
      requires Valid()
      modifies this, drained
      ensures Valid() && Seen() == Quiesced(old(Seen()), waiting)
      ensures ok <==> old(inflight) == 0 || (!Quiesced(old(Seen()), waiting).pending && !givenUp)
      ensures drained == null || drained == old(drained) || fresh(drained)
      ensures old(drained) != null ==> (old(drained).closed <==> drained == null) && (drained != null ==> drained == old(drained))
    {
      hide Moved;
      accepting := false;
      if inflight == 0 { return true; }
      if drained == null { drained := new Signal(); }
      var done := drained;
      Traffic(waiting);
      ok := done.closed && !givenUp;
    }

    /** Directs new calls to the runtime and opens admission. */
    method Activate(target: Option<Runtime>)
      requires Valid()
      modifies this`target, this`accepting
      ensures Valid() && Seen() == old(Seen()).(target := target, accepting := true)
    {
      this.target, accepting := target, true;
    }
  }
}
