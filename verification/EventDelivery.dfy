/** Event delivery: pollsters, bounded queues, step loops and the drains. One
    step of the system is one send, one receive or one finalization. */
module EventDelivery {
  import opened Text

  /** One hand-off of an event to deliver, numbered in order. */
  type Token = nat

  /** The step loop of a cell: between selects, handling an event it received,
      or about to put back one it received while idling. */
  datatype Loop = Waiting | Handling(token: Token) | Returning(token: Token) | Ended

  datatype Cell = Cell(inbound: bool, failed: bool, cancelled: bool, loop: Loop, queue: seq<Token>)

  /** A pollster: an event it polled goes to the cells still to be offered it. */
  datatype Pollster = Idle | Delivering(event: nat, direct: bool, pending: seq<nat>, delivered: bool) | Gone

  /** The main thread: serving, pollsters told to stop, cells cancelled, draining
      the queues from the n-th cell on, done with that. The control server, and
      with it reloads of cells, goes on to the end. */
  datatype Host = Serving | Stopping | Cancelling | Draining(next: nat) | Done

  /** origin[t] is the event that hand-off t carries and sentTo[t] the cell it is
      meant for; finalized lists the hand-offs, dropped the events, that were
      finalized. */
  datatype Sys = Sys(capacity: nat, cells: seq<Cell>, pollsters: seq<Pollster>, host: Host, polled: nat,
                     origin: seq<nat>, sentTo: seq<nat>, finalized: seq<Token>, dropped: seq<nat>)

  datatype Step =
    | PollDirect(p: nat, cell: nat)
    | PollBroadcast(p: nat, cells: seq<nat>)
    | Offer(p: nat)
    | Settle(p: nat)
    | Leave(p: nat)
    | Receive(i: nat)
    | Handled(i: nat)
    | IdleReceive(i: nat)
    | PutBack(i: nat)
    | Exit(i: nat)
    | Cancel(i: nat)
    | DrainOne(i: nat)
    | Relaunch(i: nat, ok: bool)
    | CloseStop
    | JoinPollsters
    | JoinLoops
    | FinalDrain

  // ------------------------------------------------------------ single cells

  /** What a step does to one cell, and what it finalizes. */
  datatype Effect = Effect(cell: Cell, finalized: seq<Token>)

  function Deliver(c: Cell, t: Token, capacity: nat): Effect
  {
    if |c.queue| < capacity then Effect(c.(queue := c.queue + [t]), []) else Effect(c, [t])
  }

  function Take(c: Cell, idle: bool): Option<Effect>
  {
    if c.loop.Waiting? && c.queue != [] && (idle ==> c.inbound)
    then Some(Effect(c.(loop := if idle then Returning(c.queue[0]) else Handling(c.queue[0]), queue := c.queue[1..]), []))
    else None
  }

  function Finish(c: Cell, capacity: nat): Option<Effect>
  {
    match c.loop
    case Handling(t) => Some(Effect(c.(loop := Waiting), [t]))
    case Returning(t) => Some(Deliver(c.(loop := Waiting), t, capacity))
    case _ => None
  }

  /** A drain takes from the queue, whatever the loop does: the loop was joined
      before, but a reload may have launched another. */
  function Drained(c: Cell): Option<Effect>
  {
    if c.queue != [] then Some(Effect(c.(queue := c.queue[1..]), [c.queue[0]])) else None
  }

  function Restarted(c: Cell, ok: bool): Option<Effect>
  {
    if !c.loop.Ended? || !c.cancelled then None
    else Some(Effect(if ok then c.(failed := false, cancelled := false, loop := Waiting) else c.(failed := true), []))
  }

  function OnCell(s: Sys, i: nat, e: Option<Effect>): Option<Sys>
    requires i < |s.cells|
  {
    match e
    case None => None
    case Some(f) => Some(s.(cells := s.cells[i := f.cell], finalized := s.finalized + f.finalized))
  }

  // ------------------------------------------------------------ the pollsters

  predicate Unreachable(s: Sys, i: nat) { i >= |s.cells| || s.cells[i].failed }

  function Polled(s: Sys, p: nat, direct: bool, targets: seq<nat>): Sys
    requires p < |s.pollsters|
  {
    if direct && (targets == [] || Unreachable(s, targets[0]))
    then s.(polled := s.polled + 1, dropped := s.dropped + [s.polled])
    else s.(polled := s.polled + 1, pollsters := s.pollsters[p := Delivering(s.polled, direct, targets, false)])
  }

  function Offered(s: Sys, p: nat): Sys
    requires p < |s.pollsters| && s.pollsters[p].Delivering? && s.pollsters[p].pending != []
  {
    var d := s.pollsters[p];
    var i, rest := d.pending[0], d.pending[1..];
    if i >= |s.cells| || (!d.direct && s.cells[i].failed) then s.(pollsters := s.pollsters[p := d.(pending := rest)])
    else
      var f := Deliver(s.cells[i], |s.origin|, s.capacity);
      s.(pollsters := s.pollsters[p := d.(pending := rest, delivered := true)], origin := s.origin + [d.event], sentTo := s.sentTo + [i],
         cells := s.cells[i := f.cell], finalized := s.finalized + f.finalized)
  }

  function Settled(s: Sys, p: nat): Sys
    requires p < |s.pollsters| && s.pollsters[p].Delivering?
  {
    var d := s.pollsters[p];
    s.(pollsters := s.pollsters[p := Idle], dropped := if d.delivered then s.dropped else s.dropped + [d.event])
  }

  // ------------------------------------------------------------ the whole system

  predicate AllGone(s: Sys) { forall p :: 0 <= p < |s.pollsters| ==> s.pollsters[p].Gone? }

  predicate AllEnded(s: Sys) { forall i :: 0 <= i < |s.cells| ==> s.cells[i].loop.Ended? }

  function AllCancelled(cells: seq<Cell>): (r: seq<Cell>)
    ensures |r| == |cells|
    ensures forall i :: 0 <= i < |cells| ==> r[i] == cells[i].(cancelled := true)
  {
    if cells == [] then [] else AllCancelled(cells[..|cells| - 1]) + [cells[|cells| - 1].(cancelled := true)]
  }

  function HostStep(s: Sys, step: Step): Option<Sys>
  {
    match step
    case CloseStop => if s.host.Serving? then Some(s.(host := Stopping)) else None
    case JoinPollsters => if s.host.Stopping? && AllGone(s) then Some(s.(host := Cancelling, cells := AllCancelled(s.cells))) else None
    case JoinLoops => if s.host.Cancelling? && AllEnded(s) then Some(s.(host := Draining(0))) else None
    case FinalDrain =>
      if !s.host.Draining? then None
      else if s.host.next >= |s.cells| then Some(s.(host := Done))
      else if s.cells[s.host.next].queue == [] then Some(s.(host := Draining(s.host.next + 1)))
      else OnCell(s, s.host.next, Drained(s.cells[s.host.next]))
    case _ => None
  }

  function PollsterStep(s: Sys, step: Step): Option<Sys>
  {
    match step
    case PollDirect(p, i) => if p < |s.pollsters| && s.pollsters[p].Idle? then Some(Polled(s, p, true, [i])) else None
    case PollBroadcast(p, targets) => if p < |s.pollsters| && s.pollsters[p].Idle? then Some(Polled(s, p, false, targets)) else None
    case Offer(p) => if p < |s.pollsters| && s.pollsters[p].Delivering? && s.pollsters[p].pending != [] then Some(Offered(s, p)) else None
    case Settle(p) => if p < |s.pollsters| && s.pollsters[p].Delivering? && s.pollsters[p].pending == [] then Some(Settled(s, p)) else None
    case Leave(p) =>
      if p < |s.pollsters| && s.pollsters[p].Idle? && !s.host.Serving? then Some(s.(pollsters := s.pollsters[p := Gone])) else None
    case _ => None
  }

  function CellEffect(s: Sys, i: nat, step: Step): Option<Effect>
    requires i < |s.cells|
  {
    var c := s.cells[i];
    match step
    case Receive(_) => Take(c, false)
    case IdleReceive(_) => Take(c, true)
    case Handled(_) => if c.loop.Handling? then Finish(c, s.capacity) else None
    case PutBack(_) => if c.loop.Returning? then Finish(c, s.capacity) else None
    case Exit(_) => if c.loop.Waiting? && c.cancelled then Some(Effect(c.(loop := Ended), [])) else None
    case Cancel(_) => Some(Effect(c.(cancelled := true), []))
    case DrainOne(_) => Drained(c)
    case Relaunch(_, ok) => Restarted(c, ok)
    case _ => None
  }

  /** The system after the step; None if the step cannot be taken. */
  function Next(s: Sys, step: Step): Option<Sys>
  {
    if step.CloseStop? || step.JoinPollsters? || step.JoinLoops? || step.FinalDrain? then HostStep(s, step)
    else if step.PollDirect? || step.PollBroadcast? || step.Offer? || step.Settle? || step.Leave? then PollsterStep(s, step)
    else if step.i < |s.cells| then OnCell(s, step.i, CellEffect(s, step.i, step))
    else None
  }

  ghost predicate Initial(s: Sys)
  {
    && s.host.Serving? && s.polled == 0 && s.origin == [] && s.sentTo == [] && s.finalized == [] && s.dropped == []
    && (forall i :: 0 <= i < |s.cells| ==> s.cells[i].queue == [] && s.cells[i].loop == if s.cells[i].failed then Ended else Waiting)
    && (forall p :: 0 <= p < |s.pollsters| ==> s.pollsters[p].Idle?)
  }

  /** A run: each state follows from the one before by its step. */
  ghost predicate Run(states: seq<Sys>, steps: seq<Step>)
  {
    && |states| == |steps| + 1 && Initial(states[0])
    && forall k :: 0 <= k < |steps| ==> Next(states[k], steps[k]) == Some(states[k + 1])
  }

  // ------------------------------------------------------------ what polls and offers do

  /** An event for one cell is dropped at once if the cell is unknown or failed,
      and else is to be handed to that cell and no other. */
  lemma {:induction false} PolledDirect(s: Sys, p: nat, i: nat)
    requires Next(s, PollDirect(p, i)).Some?
    ensures var r, known := Next(s, PollDirect(p, i)).value, i < |s.cells| && !s.cells[i].failed;
            && p < |s.pollsters| == |r.pollsters| && r.cells == s.cells && r.origin == s.origin && r.finalized == s.finalized
            && (if known
                then r.dropped == s.dropped && Busy(r, p) && r.pollsters[p].event == s.polled && r.pollsters[p].pending == [i]
                else r.dropped == s.dropped + [s.polled] && r.pollsters == s.pollsters)
  {
  }

  /** A hand-off goes to the tail of the cell's queue, or is finalized if there is
      no room; the queues of other cells stay as they are. A failed cell is passed
      over by a broadcast. */
  lemma {:induction false} HandedOff(s: Sys, p: nat)
    requires Next(s, Offer(p)).Some?
    ensures p < |s.pollsters| && Busy(s, p) && s.pollsters[p].pending != []
    ensures var r, d := Next(s, Offer(p)).value, s.pollsters[p];
            var i, t := d.pending[0], |s.origin|;
            && |r.cells| == |s.cells| && (forall j :: 0 <= j < |s.cells| && j != i ==> r.cells[j] == s.cells[j])
            && (if i >= |s.cells| || (!d.direct && s.cells[i].failed)
                then r.cells == s.cells && r.origin == s.origin && r.finalized == s.finalized
                else if |s.cells[i].queue| < s.capacity
                then r.cells[i] == s.cells[i].(queue := s.cells[i].queue + [t]) && r.origin == s.origin + [d.event] && r.finalized == s.finalized
                else r.cells == s.cells && r.origin == s.origin + [d.event] && r.finalized == s.finalized + [t])
  {
    var d := s.pollsters[p];
    assert d.pending[0] < |s.cells| ==> s.cells[d.pending[0] := s.cells[d.pending[0]]] == s.cells;
    assert s.finalized + [] == s.finalized;
  }

  // ------------------------------------------------------------ conservation

  ghost function HeldBy(l: Loop): multiset<Token>
  {
    if l.Handling? || l.Returning? then multiset{l.token} else multiset{}
  }

  ghost function OfCell(c: Cell): multiset<Token> { multiset(c.queue) + HeldBy(c.loop) }

  /** Everything queued or held anywhere. */
  ghost function Load(cells: seq<Cell>): multiset<Token>
  {
    if cells == [] then multiset{} else Load(cells[..|cells| - 1]) + OfCell(cells[|cells| - 1])
  }

  ghost function Issued(n: nat): multiset<Token> { if n == 0 then multiset{} else Issued(n - 1) + multiset{n - 1} }

  /** Every hand-off is queued, held or finalized, and only once. */
  ghost predicate Conserved(s: Sys)
  {
    Load(s.cells) + multiset(s.finalized) == Issued(|s.origin|)
  }

  lemma {:induction false} LoadUpdate(cells: seq<Cell>, i: nat, c: Cell)
    requires i < |cells|
    ensures Load(cells[i := c]) + OfCell(cells[i]) == Load(cells) + OfCell(c)
  {
    hide OfCell;
    var n := |cells| - 1;
    if i == n {
      assert cells[i := c][..n] == cells[..n];
    } else {
      LoadUpdate(cells[..n], i, c);
      assert cells[i := c][..n] == cells[..n][i := c];
      Swap(Load(cells[..n]), Load(cells[..n][i := c]), OfCell(cells[i]), OfCell(c), OfCell(cells[n]));
    }
  }

  lemma {:induction false} Swap(before: multiset<Token>, after: multiset<Token>, a: multiset<Token>, b: multiset<Token>, last: multiset<Token>)
    requires after + a == before + b
    ensures after + last + a == before + last + b
  {
    forall x ensures (after + last + a)[x] == (before + last + b)[x] { assert (after + a)[x] == (before + b)[x]; }
  }

  lemma {:induction false} AppendCount(s: seq<Token>, more: seq<Token>)
    ensures multiset(s + more) == multiset(s) + multiset(more)
  {
  }

  lemma {:induction false} TailCount(s: seq<Token>)
    requires s != []
    ensures multiset(s) == multiset{s[0]} + multiset(s[1..])
  {
    assert s == [s[0]] + s[1..];
  }

  /** The effect neither loses nor doubles a hand-off. */
  ghost predicate Keeps(c: Cell, f: Effect) { OfCell(f.cell) + multiset(f.finalized) == OfCell(c) }

  lemma {:induction false} DeliverKeeps(c: Cell, t: Token, capacity: nat)
    ensures var f := Deliver(c, t, capacity); OfCell(f.cell) + multiset(f.finalized) == OfCell(c) + multiset{t}
  {
    AppendCount(c.queue, [t]);
  }

  lemma {:induction false} TakeKeeps(c: Cell, idle: bool)
    requires Take(c, idle).Some?
    ensures Keeps(c, Take(c, idle).value)
  {
    TailCount(c.queue);
  }

  lemma {:induction false} FinishKeeps(c: Cell, capacity: nat)
    requires Finish(c, capacity).Some?
    ensures Keeps(c, Finish(c, capacity).value)
  {
    if c.loop.Returning? { DeliverKeeps(c.(loop := Waiting), c.loop.token, capacity); }
  }

  lemma {:induction false} DrainedKeeps(c: Cell)
    requires Drained(c).Some?
    ensures Keeps(c, Drained(c).value)
  {
    TailCount(c.queue);
  }

  /** Steps that touch neither the queue nor what is held. */
  lemma {:induction false} FlagsKeep(c: Cell, f: Effect)
    requires f.finalized == [] && f.cell.queue == c.queue && HeldBy(f.cell.loop) == HeldBy(c.loop)
    ensures Keeps(c, f)
  {
  }

  lemma {:induction false} EffectsKeep(s: Sys, i: nat, step: Step)
    requires i < |s.cells| && CellEffect(s, i, step).Some?
    ensures Keeps(s.cells[i], CellEffect(s, i, step).value)
  {
    hide Keeps, Finish, Take, Drained;
    var c := s.cells[i];
    match step
    case Receive(_) => TakeKeeps(c, false);
    case IdleReceive(_) => TakeKeeps(c, true);
    case Handled(_) => FinishKeeps(c, s.capacity);
    case PutBack(_) => FinishKeeps(c, s.capacity);
    case DrainOne(_) => DrainedKeeps(c);
    case Exit(_) => FlagsKeep(c, CellEffect(s, i, step).value);
    case Cancel(_) => FlagsKeep(c, CellEffect(s, i, step).value);
    case Relaunch(_, _) => FlagsKeep(c, CellEffect(s, i, step).value);
    case _ =>
  }

  lemma {:induction false} OnCellConserves(s: Sys, i: nat, f: Effect)
    requires Conserved(s) && i < |s.cells| && Keeps(s.cells[i], f)
    ensures Conserved(OnCell(s, i, Some(f)).value)
  {
    hide OfCell, Load, Issued;
    LoadUpdate(s.cells, i, f.cell);
    AppendCount(s.finalized, f.finalized);
    Balance(Load(s.cells), Load(s.cells[i := f.cell]), OfCell(s.cells[i]), OfCell(f.cell), multiset(s.finalized), multiset(f.finalized));
  }

  lemma {:induction false} Balance(before: multiset<Token>, after: multiset<Token>, a: multiset<Token>, b: multiset<Token>,
                                   done: multiset<Token>, more: multiset<Token>)
    requires after + a == before + b && b + more == a
    ensures after + (done + more) == before + done
  {
    forall x ensures (after + (done + more))[x] == (before + done)[x] {
      assert (after + a)[x] == (before + b)[x] && (b + more)[x] == a[x];
    }
  }

  lemma {:induction false} OfferConserves(s: Sys, p: nat)
    requires Conserved(s) && p < |s.pollsters| && s.pollsters[p].Delivering? && s.pollsters[p].pending != []
    ensures Conserved(Offered(s, p))
  {
    hide OfCell, Load;
    var d := s.pollsters[p];
    var i := d.pending[0];
    if !(i >= |s.cells| || (!d.direct && s.cells[i].failed)) {
      var t := |s.origin|;
      var f := Deliver(s.cells[i], t, s.capacity);
      DeliverKeeps(s.cells[i], t, s.capacity);
      hide Deliver;
      LoadUpdate(s.cells, i, f.cell);
      AppendCount(s.finalized, f.finalized);
      BalanceMore(Load(s.cells), Load(s.cells[i := f.cell]), OfCell(s.cells[i]), OfCell(f.cell), multiset(s.finalized), multiset(f.finalized), t);
    }
  }

  lemma {:induction false} BalanceMore(before: multiset<Token>, after: multiset<Token>, a: multiset<Token>, b: multiset<Token>,
                                       done: multiset<Token>, more: multiset<Token>, t: Token)
    requires after + a == before + b && b + more == a + multiset{t}
    ensures after + (done + more) == before + done + multiset{t}
  {
    forall x ensures (after + (done + more))[x] == (before + done + multiset{t})[x] {
      assert (after + a)[x] == (before + b)[x] && (b + more)[x] == (a + multiset{t})[x];
    }
  }

  lemma {:induction false} CancelLoad(cells: seq<Cell>)
    ensures Load(AllCancelled(cells)) == Load(cells)
  {
    if cells != [] { CancelLoad(cells[..|cells| - 1]); }
  }

  lemma {:induction false} StepConserves(s: Sys, step: Step)
    requires Conserved(s) && Next(s, step).Some?
    ensures Conserved(Next(s, step).value)
  {
    hide Load, OfCell, Issued, CellEffect, Offered, Deliver, AllGone, AllEnded, Drained;
    if step.JoinPollsters? {
      CancelLoad(s.cells);
    } else if step.FinalDrain? {
      if s.host.next < |s.cells| && s.cells[s.host.next].queue != [] {
        DrainIs(s, s.host.next);
        EffectsKeep(s, s.host.next, DrainOne(s.host.next));
        OnCellConserves(s, s.host.next, Drained(s.cells[s.host.next]).value);
      }
    } else if step.Offer? {
      OfferConserves(s, step.p);
    } else if !(step.CloseStop? || step.JoinLoops? || step.PollDirect? || step.PollBroadcast? || step.Settle? || step.Leave?) {
      EffectsKeep(s, step.i, step);
      OnCellConserves(s, step.i, CellEffect(s, step.i, step).value);
    }
  }

  lemma {:induction false} DrainIs(s: Sys, i: nat)
    requires i < |s.cells|
    ensures CellEffect(s, i, DrainOne(i)) == Drained(s.cells[i])
  {
  }

  // ------------------------------------------------------------ events that reach no cell

  ghost predicate Busy(s: Sys, p: nat) { p < |s.pollsters| && s.pollsters[p].Delivering? }

  ghost predicate InProgress(s: Sys, e: nat) { exists p: nat :: Busy(s, p) && s.pollsters[p].event == e }

  /** An event being delivered has not been dropped, and is marked as delivered
      exactly if it was handed off. */
  ghost predicate BusySound(s: Sys, p: nat)
    requires Busy(s, p)
  {
    var d := s.pollsters[p];
    d.event < s.polled && (d.delivered <==> d.event in s.origin) && d.event !in s.dropped
  }

  /** No two pollsters deliver the same event, and an event that nobody is
      delivering any more was dropped exactly once if it was never handed off. */
  ghost predicate Accounted(s: Sys)
  {
    && (forall e: nat :: e in s.origin || e in s.dropped ==> e < s.polled)
    && (forall p: nat :: Busy(s, p) ==> BusySound(s, p))
    && (forall p: nat, q: nat :: Busy(s, p) && Busy(s, q) && p != q ==> s.pollsters[p].event != s.pollsters[q].event)
    && (forall e: nat :: e < s.polled && !InProgress(s, e) ==> DroppedRight(s, e))
  }

  /** Dropped once if it reached no cell, never if it reached one. */
  ghost predicate DroppedRight(s: Sys, e: nat) { multiset(s.dropped)[e] == if e in s.origin then 0 else 1 }

  lemma {:induction false} StepAccounts(s: Sys, step: Step)
    requires Accounted(s) && Next(s, step).Some?
    ensures Accounted(Next(s, step).value)
  {
    hide CellEffect, Deliver, AllGone, AllEnded, Drained, Accounted;
    var r := Next(s, step).value;
    if step.PollDirect? || step.PollBroadcast? {
      var targets := if step.PollDirect? then [step.cell] else step.cells;
      PollAccounts(s, step.p, step.PollDirect?, targets);
    } else if step.Offer? {
      OfferAccounts(s, step.p);
    } else if step.Settle? {
      SettleAccounts(s, step.p);
    } else if step.Leave? {
      SamePollsters(s, r);
    } else {
      SamePollsters(s, r);
    }
  }

  /** Steps that neither poll, hand off nor drop. */
  lemma {:induction false} SamePollsters(s: Sys, r: Sys)
    requires Accounted(s) && r.polled == s.polled && r.origin == s.origin && r.dropped == s.dropped
    requires forall p: nat :: (Busy(s, p) <==> Busy(r, p)) && (Busy(s, p) ==> r.pollsters[p] == s.pollsters[p])
    ensures Accounted(r)
  {
    forall p: nat | Busy(r, p) ensures BusySound(r, p) { assert BusySound(s, p); }
    forall e: nat ensures InProgress(r, e) <==> InProgress(s, e) {
      if InProgress(s, e) { var p: nat :| Busy(s, p) && s.pollsters[p].event == e; assert Busy(r, p); }
      if InProgress(r, e) { var p: nat :| Busy(r, p) && r.pollsters[p].event == e; assert Busy(s, p); }
    }
    forall e: nat | e < r.polled && !InProgress(r, e) ensures DroppedRight(r, e) { assert DroppedRight(s, e); }
  }

  lemma {:induction false} StaysInProgress(s: Sys, r: Sys, e: nat)
    requires forall q: nat :: Busy(s, q) && s.pollsters[q].event == e ==> Busy(r, q) && r.pollsters[q].event == e
    ensures InProgress(s, e) ==> InProgress(r, e)
  {
    if InProgress(s, e) {
      var q: nat :| Busy(s, q) && s.pollsters[q].event == e;
      assert Busy(r, q);
    }
  }

  lemma {:induction false} NeverSeen(s: Sys, e: nat)
    requires Accounted(s) && e >= s.polled
    ensures e !in s.origin && e !in s.dropped && !InProgress(s, e)
  {
    hide DroppedRight;
    forall p: nat | Busy(s, p) ensures s.pollsters[p].event != e { assert BusySound(s, p); }
  }

  lemma {:induction false} PollAccounts(s: Sys, p: nat, direct: bool, targets: seq<nat>)
    requires Accounted(s) && p < |s.pollsters| && s.pollsters[p].Idle?
    ensures Accounted(Polled(s, p, direct, targets))
  {
    hide Unreachable;
    var r := Polled(s, p, direct, targets);
    NeverSeen(s, s.polled);
    if direct && (targets == [] || Unreachable(s, targets[0])) {
      DropAccounts(s, r, s.polled);
    } else {
      forall q: nat | Busy(r, q) ensures BusySound(r, q) { if q != p { assert Busy(s, q) && BusySound(s, q); } }
      forall e: nat | e < r.polled && !InProgress(r, e) ensures DroppedRight(r, e) {
        assert Busy(r, p) && r.pollsters[p].event == s.polled;
        StaysInProgress(s, r, e);
        assert DroppedRight(s, e);
      }
    }
  }

  /** A new event that is dropped at once. */
  lemma {:induction false} DropAccounts(s: Sys, r: Sys, e: nat)
    requires Accounted(s) && e == s.polled && r == s.(polled := e + 1, dropped := s.dropped + [e])
    requires e !in s.origin && e !in s.dropped && !InProgress(s, e)
    ensures Accounted(r)
  {
    AppendCount(s.dropped, [e]);
    forall q: nat | Busy(r, q) ensures BusySound(r, q) { assert Busy(s, q) && BusySound(s, q); }
    forall x: nat | x < r.polled && !InProgress(r, x) ensures DroppedRight(r, x) {
      if x != e {
        StaysInProgress(s, r, x);
        assert DroppedRight(s, x);
      } else {
        assert multiset(s.dropped)[e] == 0;
      }
    }
  }

  lemma {:induction false} OfferAccounts(s: Sys, p: nat)
    requires Accounted(s) && p < |s.pollsters| && s.pollsters[p].Delivering? && s.pollsters[p].pending != []
    ensures Accounted(Offered(s, p))
  {
    hide Deliver, DroppedRight;
    var r, d := Offered(s, p), s.pollsters[p];
    assert Busy(s, p) && BusySound(s, p) && Busy(r, p);
    assert forall x :: x in r.origin ==> x in s.origin || x == d.event;
    assert forall x :: x in s.origin ==> x in r.origin;
    forall q: nat | Busy(r, q) ensures BusySound(r, q) { assert Busy(s, q) && BusySound(s, q); }
    forall e: nat | e < r.polled && !InProgress(r, e) ensures DroppedRight(r, e) {
      assert Busy(r, p) && r.pollsters[p].event == d.event;
      StaysInProgress(s, r, e);
      assert DroppedRight(s, e);
      SameVerdict(s, r, e);
    }
  }

  lemma {:induction false} SameVerdict(s: Sys, r: Sys, e: nat)
    requires DroppedRight(s, e) && r.dropped == s.dropped && (e in r.origin <==> e in s.origin)
    ensures DroppedRight(r, e)
  {
  }

  lemma {:induction false} SettleAccounts(s: Sys, p: nat)
    requires Accounted(s) && p < |s.pollsters| && s.pollsters[p].Delivering?
    ensures Accounted(Settled(s, p))
  {
    hide DroppedRight;
    var r, d := Settled(s, p), s.pollsters[p];
    assert Busy(s, p) && BusySound(s, p);
    forall q: nat | Busy(r, q) ensures BusySound(r, q) { assert Busy(s, q) && BusySound(s, q) && q != p; }
    forall e: nat | e < r.polled && !InProgress(r, e) ensures DroppedRight(r, e) {
      if e == d.event {
        SettledVerdict(s, r, d);
      } else {
        StaysInProgress(s, r, e);
        assert DroppedRight(s, e);
        OtherVerdict(s, r, d, e);
      }
    }
  }

  lemma {:induction false} SettledVerdict(s: Sys, r: Sys, d: Pollster)
    requires d.Delivering? && (d.delivered <==> d.event in s.origin) && d.event !in s.dropped
    requires r.origin == s.origin && r.dropped == if d.delivered then s.dropped else s.dropped + [d.event]
    ensures DroppedRight(r, d.event)
  {
    AppendCount(s.dropped, [d.event]);
    assert multiset(s.dropped)[d.event] == 0;
  }

  lemma {:induction false} OtherVerdict(s: Sys, r: Sys, d: Pollster, e: nat)
    requires d.Delivering? && e != d.event && DroppedRight(s, e)
    requires r.origin == s.origin && r.dropped == if d.delivered then s.dropped else s.dropped + [d.event]
    ensures DroppedRight(r, e)
  {
    AppendCount(s.dropped, [d.event]);
  }

  // ------------------------------------------------------------ how the host stops

  /** Queues are only emptied for good once nobody can fill them. */
  ghost predicate Phased(s: Sys)
  {
    && Unfed(s)
    && (s.host.Draining? ==> AllEnded(s))
    && (s.host.Draining? ==> forall i :: 0 <= i < s.host.next && i < |s.cells| ==> s.cells[i].queue == [])
    && (s.host.Done? ==> forall i :: 0 <= i < |s.cells| ==> Empty(s.cells[i]))
  }

  ghost predicate Unfed(s: Sys) { s.host.Cancelling? || s.host.Draining? || s.host.Done? ==> AllGone(s) }

  predicate Empty(c: Cell) { c.queue == [] && !c.loop.Handling? && !c.loop.Returning? }

  /** The step launches a loop although all loops have been joined. */
  predicate Late(s: Sys, step: Step) { s.host.Draining? && step.Relaunch? && step.ok }

  lemma {:induction false} StepPhases(s: Sys, step: Step)
    requires Phased(s) && Next(s, step).Some? && !Late(s, step)
    ensures Phased(Next(s, step).value)
  {
    hide Deliver;
    var r := Next(s, step).value;
    if step.CloseStop? || step.JoinPollsters? || step.JoinLoops? || step.FinalDrain? {
    } else if step.PollDirect? || step.PollBroadcast? || step.Offer? || step.Settle? || step.Leave? {
      assert !AllGone(s);
    } else {
      OtherCells(s, step);
    }
  }

  lemma {:induction false} OtherCells(s: Sys, step: Step)
    requires Phased(s) && Next(s, step).Some? && !Late(s, step)
    requires !(step.CloseStop? || step.JoinPollsters? || step.JoinLoops? || step.FinalDrain?)
    requires !(step.PollDirect? || step.PollBroadcast? || step.Offer? || step.Settle? || step.Leave?)
    ensures Phased(Next(s, step).value)
  {
    hide Deliver;
    var f := CellEffect(s, step.i, step).value;
    if s.host.Draining? {
      assert s.cells[step.i].loop.Ended? && f.cell.loop.Ended? && (s.cells[step.i].queue == [] ==> f.cell.queue == []);
    }
  }

  // ------------------------------------------------------------ bounds and order

  /** What a cell has before it: what it holds, then what is queued. */
  function Line(c: Cell): seq<Token> { (if c.loop.Handling? || c.loop.Returning? then [c.loop.token] else []) + c.queue }

  ghost predicate Rising(line: seq<Token>)
  {
    forall i, j :: 0 <= i < j < |line| ==> line[i] < line[j]
  }

  /** Cells whose line never changes its order: those that do not idle, and those
      that put an event back into an empty queue or not at all. */
  predicate Steady(c: Cell, capacity: nat) { !c.inbound || capacity <= 1 }

  /** The queue keeps its bound, every hand-off in the line was sent to this
      cell, and in a steady cell they stand in the order of the hand-offs. */
  ghost predicate Orderly(s: Sys, i: nat)
    requires i < |s.cells|
  {
    var c := s.cells[i];
    && |c.queue| <= s.capacity && (!c.inbound ==> !c.loop.Returning?)
    && (forall x :: x in Line(c) ==> x < |s.sentTo| && s.sentTo[x] == i)
    && (Steady(c, s.capacity) ==> Rising(Line(c)))
  }

  ghost predicate AllOrderly(s: Sys)
  {
    |s.sentTo| == |s.origin| && forall i :: 0 <= i < |s.cells| ==> Orderly(s, i)
  }

  /** The line loses its first hand-off, or a drain takes the one behind it. */
  ghost predicate Shrinks(before: seq<Token>, after: seq<Token>)
  {
    (|before| > 0 && after == before[1..]) || (|before| > 1 && after == [before[0]] + before[2..])
  }

  /** How a line may change: not at all, at its front, or by the hand-off n at its end. */
  ghost predicate Advances(before: seq<Token>, after: seq<Token>, n: nat)
  {
    after == before || Shrinks(before, after) || after == before + [n]
  }

  /** What a step may do to a cell: its line holds nothing it did not hold but
      the new hand-off, which was sent to it, and advances if the cell is steady. */
  ghost predicate Proceeds(s: Sys, r: Sys, i: nat)
    requires i < |s.cells| == |r.cells|
  {
    var c, d, n := s.cells[i], r.cells[i], |s.sentTo|;
    && d.inbound == c.inbound && |d.queue| <= s.capacity && (!d.inbound ==> !d.loop.Returning?)
    && (forall x :: x in Line(d) ==> x in Line(c) || (x == n && r.sentTo == s.sentTo + [i]))
    && (Steady(c, s.capacity) ==> Advances(Line(c), Line(d), n))
  }

  ghost predicate AllProceed(s: Sys, r: Sys)
  {
    && |r.cells| == |s.cells| && r.capacity == s.capacity && s.sentTo <= r.sentTo && |r.sentTo| == |r.origin|
    && forall i :: 0 <= i < |s.cells| ==> Proceeds(s, r, i)
  }

  /** The effects of a step on its own cell, told by the lines. */
  ghost predicate Shortens(c: Cell, d: Cell, capacity: nat)
  {
    && d.inbound == c.inbound && |d.queue| <= capacity && (!d.inbound ==> !d.loop.Returning?)
    && (forall x :: x in Line(d) ==> x in Line(c))
    && (Steady(c, capacity) ==> Line(d) == Line(c) || Shrinks(Line(c), Line(d)))
  }

  lemma {:induction false} TakeShortens(c: Cell, idle: bool, capacity: nat)
    requires |c.queue| <= capacity && Take(c, idle).Some?
    ensures Shortens(c, Take(c, idle).value.cell, capacity)
  {
    var d := Take(c, idle).value.cell;
    assert c.queue == [c.queue[0]] + c.queue[1..];
    assert Line(c) == [] + c.queue == c.queue;
    assert Line(d) == c.queue;
  }

  lemma {:induction false} FinishShortens(c: Cell, capacity: nat)
    requires |c.queue| <= capacity && (!c.inbound ==> !c.loop.Returning?) && Finish(c, capacity).Some?
    ensures Shortens(c, Finish(c, capacity).value.cell, capacity)
  {
    var d, t := Finish(c, capacity).value.cell, c.loop.token;
    assert Line(c) == [t] + c.queue && Line(c)[1..] == c.queue;
    assert Line(d) == [] + d.queue == d.queue;
    if c.loop.Returning? && |c.queue| < capacity {
      assert d.queue == c.queue + [t];
      assert capacity <= 1 ==> d.queue == [t] == Line(c);
    }
  }

  lemma {:induction false} DrainShortens(c: Cell, capacity: nat)
    requires |c.queue| <= capacity && (!c.inbound ==> !c.loop.Returning?) && Drained(c).Some?
    ensures Shortens(c, Drained(c).value.cell, capacity)
  {
    var d := Drained(c).value.cell;
    if c.loop.Handling? || c.loop.Returning? {
      var t := c.loop.token;
      assert Line(c) == [t] + c.queue && Line(d) == [t] + c.queue[1..] == [Line(c)[0]] + Line(c)[2..];
    } else {
      assert Line(c) == [] + c.queue == c.queue && Line(d) == [] + c.queue[1..] == c.queue[1..];
    }
    forall x | x in c.queue[1..] ensures x in c.queue {}
  }

  lemma {:induction false} SameLine(c: Cell, d: Cell, capacity: nat)
    requires d.queue == c.queue && HeldBy(d.loop) == HeldBy(c.loop) && d.inbound == c.inbound
    requires (d.loop.Returning? <==> c.loop.Returning?) && (d.loop.Handling? <==> c.loop.Handling?)
    requires |c.queue| <= capacity && (!c.inbound ==> !c.loop.Returning?)
    ensures Shortens(c, d, capacity)
  {
    if c.loop.Returning? || c.loop.Handling? { assert d.loop.token in HeldBy(d.loop); }
    assert Line(d) == Line(c);
  }

  lemma {:induction false} EffectsShorten(s: Sys, i: nat, step: Step)
    requires i < |s.cells| && CellEffect(s, i, step).Some?
    requires |s.cells[i].queue| <= s.capacity && (!s.cells[i].inbound ==> !s.cells[i].loop.Returning?)
    ensures Shortens(s.cells[i], CellEffect(s, i, step).value.cell, s.capacity)
  {
    hide Shortens, Finish, Take, Drained;
    var c := s.cells[i];
    match step
    case Receive(_) => TakeShortens(c, false, s.capacity);
    case IdleReceive(_) => TakeShortens(c, true, s.capacity);
    case Handled(_) => FinishShortens(c, s.capacity);
    case PutBack(_) => FinishShortens(c, s.capacity);
    case DrainOne(_) => DrainShortens(c, s.capacity);
    case Exit(_) => SameLine(c, CellEffect(s, i, step).value.cell, s.capacity);
    case Cancel(_) => SameLine(c, CellEffect(s, i, step).value.cell, s.capacity);
    case Relaunch(_, _) => SameLine(c, CellEffect(s, i, step).value.cell, s.capacity);
    case _ =>
  }

  lemma {:induction false} SameProceeds(s: Sys, r: Sys, i: nat)
    requires AllOrderly(s) && i < |s.cells| == |r.cells| && r.capacity == s.capacity
    requires Shortens(s.cells[i], r.cells[i], s.capacity)
    ensures Proceeds(s, r, i)
  {
    hide Line, Rising, Steady;
  }

  lemma {:induction false} OrderlyBounds(s: Sys, i: nat)
    requires AllOrderly(s) && i < |s.cells|
    ensures |s.cells[i].queue| <= s.capacity && (!s.cells[i].inbound ==> !s.cells[i].loop.Returning?)
    ensures Shortens(s.cells[i], s.cells[i], s.capacity)
  {
    hide Rising;
    assert Orderly(s, i);
  }

  /** A step of one cell. */
  lemma {:induction false} OneCellProceeds(s: Sys, i: nat, step: Step, r: Sys)
    requires AllOrderly(s) && i < |s.cells| && CellEffect(s, i, step).Some?
    requires r.cells == s.cells[i := CellEffect(s, i, step).value.cell] && r.capacity == s.capacity
    requires r.sentTo == s.sentTo && r.origin == s.origin
    ensures AllProceed(s, r)
  {
    hide Orderly, Shortens, CellEffect, Proceeds;
    forall j | 0 <= j < |s.cells| ensures Proceeds(s, r, j) {
      OrderlyBounds(s, j);
      if j == i { EffectsShorten(s, i, step); }
      SameProceeds(s, r, j);
    }
  }

  lemma {:induction false} DeliverLine(c: Cell, n: Token, capacity: nat)
    requires |c.queue| <= capacity && (!c.inbound ==> !c.loop.Returning?)
    ensures var d := Deliver(c, n, capacity).cell;
            && d.inbound == c.inbound && |d.queue| <= capacity && d.loop == c.loop
            && (Line(d) == Line(c) || Line(d) == Line(c) + [n])
  {
    var d := Deliver(c, n, capacity).cell;
    if |c.queue| < capacity { assert Line(d) == Line(c) + [n]; }
  }

  lemma {:induction false} OfferProceeds(s: Sys, p: nat)
    requires AllOrderly(s) && p < |s.pollsters| && s.pollsters[p].Delivering? && s.pollsters[p].pending != []
    ensures AllProceed(s, Offered(s, p))
  {
    hide Orderly, Shortens, Deliver, Proceeds, Line;
    var r, d := Offered(s, p), s.pollsters[p];
    var i := d.pending[0];
    forall j | 0 <= j < |s.cells| ensures Proceeds(s, r, j) {
      OrderlyBounds(s, j);
      if r.cells[j] == s.cells[j] {
        SameProceeds(s, r, j);
      } else {
        DeliverLine(s.cells[j], |s.origin|, s.capacity);
        SentProceeds(s, r, j);
      }
    }
  }

  lemma {:induction false} SentProceeds(s: Sys, r: Sys, j: nat)
    requires j < |s.cells| == |r.cells| && r.capacity == s.capacity && r.sentTo == s.sentTo + [j]
    requires r.cells[j].inbound == s.cells[j].inbound && |r.cells[j].queue| <= s.capacity && r.cells[j].loop == s.cells[j].loop
    requires !s.cells[j].inbound ==> !s.cells[j].loop.Returning?
    requires Line(r.cells[j]) == Line(s.cells[j]) || Line(r.cells[j]) == Line(s.cells[j]) + [|s.sentTo|]
    ensures Proceeds(s, r, j)
  {
    hide Line;
  }

  lemma {:induction false} CancelProceeds(s: Sys)
    requires AllOrderly(s)
    ensures AllProceed(s, s.(cells := AllCancelled(s.cells), host := Cancelling))
  {
    hide Orderly, Shortens, Proceeds;
    var r := s.(cells := AllCancelled(s.cells), host := Cancelling);
    forall j | 0 <= j < |s.cells| ensures Proceeds(s, r, j) {
      OrderlyBounds(s, j);
      SameLine(s.cells[j], r.cells[j], s.capacity);
      SameProceeds(s, r, j);
    }
  }

  lemma {:induction false} OthersProceed(s: Sys, r: Sys)
    requires AllOrderly(s) && r.cells == s.cells && r.capacity == s.capacity && r.sentTo == s.sentTo && r.origin == s.origin
    ensures AllProceed(s, r)
  {
    hide Orderly, Shortens, Proceeds;
    forall j | 0 <= j < |s.cells| ensures Proceeds(s, r, j) {
      OrderlyBounds(s, j);
      SameProceeds(s, r, j);
    }
  }

  /** Every step lets every cell proceed. */
  lemma {:induction false} StepProceeds(s: Sys, step: Step)
    requires AllOrderly(s) && Next(s, step).Some?
    ensures AllProceed(s, Next(s, step).value)
  {
    hide AllOrderly, AllProceed, CellEffect, Offered, Deliver, AllGone, AllEnded, Drained;
    var r := Next(s, step).value;
    if step.JoinPollsters? {
      CancelProceeds(s);
    } else if step.Offer? {
      OfferProceeds(s, step.p);
    } else if step.FinalDrain? {
      if s.host.next < |s.cells| && s.cells[s.host.next].queue != [] {
        DrainIs(s, s.host.next);
        OneCellProceeds(s, s.host.next, DrainOne(s.host.next), r);
      } else {
        OthersProceed(s, r);
      }
    } else if step.CloseStop? || step.JoinLoops? || step.PollDirect? || step.PollBroadcast? || step.Settle? || step.Leave? {
      OthersProceed(s, r);
    } else {
      OneCellProceeds(s, step.i, step, r);
    }
  }

  lemma {:induction false} ProceedsOrderly(s: Sys, r: Sys, i: nat)
    requires AllOrderly(s) && AllProceed(s, r) && i < |s.cells|
    ensures Orderly(r, i)
  {
    hide Line;
    assert Orderly(s, i) && Proceeds(s, r, i);
    var c, d, n := s.cells[i], r.cells[i], |s.sentTo|;
    forall x | x in Line(d) ensures x < |r.sentTo| && r.sentTo[x] == i {
      if x in Line(c) { assert s.sentTo[x] == r.sentTo[x]; }
    }
    if Steady(c, s.capacity) { AdvancesRising(Line(c), Line(d), n); }
  }

  lemma {:induction false} AdvancesRising(before: seq<Token>, after: seq<Token>, n: nat)
    requires Rising(before) && Advances(before, after, n) && forall x :: x in before ==> x < n
    ensures Rising(after)
  {
    forall i, j | 0 <= i < j < |after| ensures after[i] < after[j] {
      if after == before + [n] {
        assert after[i] in before;
      } else if after != before {
        assert after[j] == before[j + 1] && (after[i] == before[i] || after[i] == before[i + 1]);
      }
    }
  }

  lemma {:induction false} StepOrders(s: Sys, step: Step)
    requires AllOrderly(s) && Next(s, step).Some?
    ensures AllOrderly(Next(s, step).value)
  {
    hide Orderly, Next, Proceeds;
    StepProceeds(s, step);
    var r := Next(s, step).value;
    forall i | 0 <= i < |r.cells| ensures Orderly(r, i) { ProceedsOrderly(s, r, i); }
  }

  lemma {:induction false} InitialOrder(s: Sys)
    requires Initial(s)
    ensures AllOrderly(s)
  {
  }

  /** In every run a queue never exceeds its capacity, and what a cell has before
      it was sent to it. */
  lemma {:induction false} QueuesAreBounded(states: seq<Sys>, steps: seq<Step>, k: nat)
    requires Run(states, steps) && k < |states|
    ensures AllOrderly(states[k])
  {
    hide AllOrderly, Next, Initial;
    if k == 0 {
      InitialOrder(states[0]);
    } else {
      QueuesAreBounded(states, steps, k - 1);
      assert Next(states[k - 1], steps[k - 1]) == Some(states[k]);
      StepOrders(states[k - 1], steps[k - 1]);
    }
  }

  /** A cell keeps its place and its kind. */
  lemma {:induction false} SameCell(states: seq<Sys>, steps: seq<Step>, i: nat, k: nat)
    requires Run(states, steps) && k < |states| && i < |states[0].cells|
    ensures |states[k].cells| == |states[0].cells| && states[k].capacity == states[0].capacity
    ensures states[k].cells[i].inbound == states[0].cells[i].inbound
  {
    hide AllOrderly, Next, Initial;
    if k > 0 {
      SameCell(states, steps, i, k - 1);
      QueuesAreBounded(states, steps, k - 1);
      assert Next(states[k - 1], steps[k - 1]) == Some(states[k]);
      StepProceeds(states[k - 1], steps[k - 1]);
      assert Proceeds(states[k - 1], states[k], i);
    }
  }

  /** Nothing in the line is older than t. */
  ghost predicate NotBefore(line: seq<Token>, t: Token) { forall x :: x in line ==> t <= x }

  /** What a steady cell was handling at j is older than all it has before it later. */
  lemma {:induction false} NothingOlderComes(states: seq<Sys>, steps: seq<Step>, i: nat, j: nat, k: nat)
    requires Run(states, steps) && j <= k < |states| && i < |states[0].cells|
    requires |states[j].cells| == |states[0].cells| && states[j].cells[i].loop.Handling?
    requires Steady(states[0].cells[i], states[0].capacity)
    ensures |states[k].cells| == |states[0].cells| && NotBefore(Line(states[k].cells[i]), states[j].cells[i].loop.token)
    ensures states[j].cells[i].loop.token < |states[k].sentTo|
    decreases k
  {
    hide Next, Initial, Orderly, Rising;
    var t := states[j].cells[i].loop.token;
    SameCell(states, steps, i, k);
    if k == j {
      QueuesAreBounded(states, steps, j);
      SameCell(states, steps, i, j);
      HeadIsOldest(states[j], i);
    } else {
      NothingOlderComes(states, steps, i, j, k - 1);
      SameCell(states, steps, i, k - 1);
      QueuesAreBounded(states, steps, k - 1);
      assert Next(states[k - 1], steps[k - 1]) == Some(states[k]);
      StepProceeds(states[k - 1], steps[k - 1]);
      assert Proceeds(states[k - 1], states[k], i);
    }
  }

  lemma {:induction false} HeadIsOldest(s: Sys, i: nat)
    requires AllOrderly(s) && i < |s.cells| && s.cells[i].loop.Handling? && Steady(s.cells[i], s.capacity)
    ensures NotBefore(Line(s.cells[i]), s.cells[i].loop.token) && s.cells[i].loop.token < |s.sentTo|
  {
    assert Orderly(s, i);
    assert Line(s.cells[i])[0] == s.cells[i].loop.token;
    assert s.cells[i].loop.token in Line(s.cells[i]);
  }

  /** In the run, cell i handles events in the order in which they were handed off. */
  ghost predicate InOrder(states: seq<Sys>, i: nat)
  {
    forall j, k :: 0 <= j < k < |states| && Handles(states[j], i) && Handles(states[k], i) ==>
      states[j].cells[i].loop.token <= states[k].cells[i].loop.token
  }

  ghost predicate Handles(s: Sys, i: nat) { i < |s.cells| && s.cells[i].loop.Handling? }

  lemma {:induction false} SteadyCellsKeepOrder(states: seq<Sys>, steps: seq<Step>, i: nat)
    requires Run(states, steps) && i < |states[0].cells| && Steady(states[0].cells[i], states[0].capacity)
    ensures InOrder(states, i)
  {
    hide Run, NotBefore, Steady;
    forall j, k | 0 <= j < k < |states| && Handles(states[j], i) && Handles(states[k], i)
      ensures states[j].cells[i].loop.token <= states[k].cells[i].loop.token
    {
      SameCell(states, steps, i, j);
      NothingOlderComes(states, steps, i, j, k);
      AtHead(states[k].cells[i], states[j].cells[i].loop.token);
    }
  }

  lemma {:induction false} AtHead(c: Cell, t: Token)
    requires c.loop.Handling? && NotBefore(Line(c), t)
    ensures t <= c.loop.token
  {
    assert Line(c)[0] == c.loop.token;
    assert c.loop.token in Line(c);
  }

  // ------------------------------------------------------------ a run that reorders

  const REORDERING: seq<Step> := [
    PollDirect(0, 0), Offer(0), Settle(0), PollDirect(0, 0), Offer(0), Settle(0),
    IdleReceive(0), PutBack(0), Receive(0), Handled(0), Receive(0)
  ]

  /** One cell that idles and one pollster, after n hand-offs. */
  function Alone(capacity: nat, loop: Loop, queue: seq<Token>, p: Pollster, polled: nat, n: nat, finalized: seq<Token>): Sys
  {
    Sys(capacity, [Cell(true, false, false, loop, queue)], [p], Serving, polled, Numbers(n), Zeros(n), finalized, [])
  }

  function Numbers(n: nat): (s: seq<nat>)
    ensures |s| == n
  {
    if n == 0 then [] else Numbers(n - 1) + [n - 1]
  }

  function Zeros(n: nat): seq<nat> { if n == 0 then [] else Zeros(n - 1) + [0] }

  lemma {:induction false} PollAlone(capacity: nat, queue: seq<Token>, n: nat)
    ensures Next(Alone(capacity, Waiting, queue, Idle, n, n, []), PollDirect(0, 0))
            == Some(Alone(capacity, Waiting, queue, Delivering(n, true, [0], false), n + 1, n, []))
  {
    hide Numbers, Zeros;
    var s := Alone(capacity, Waiting, queue, Idle, n, n, []);
    assert s.pollsters[0 := Delivering(n, true, [0], false)] == [Delivering(n, true, [0], false)];
  }

  lemma {:induction false} OfferAlone(capacity: nat, queue: seq<Token>, n: nat)
    requires |queue| < capacity
    ensures Next(Alone(capacity, Waiting, queue, Delivering(n, true, [0], false), n + 1, n, []), Offer(0))
            == Some(Alone(capacity, Waiting, queue + [n], Delivering(n, true, [], true), n + 1, n + 1, []))
  {
    var s := Alone(capacity, Waiting, queue, Delivering(n, true, [0], false), n + 1, n, []);
    var d, c := Delivering(n, true, [], true), Cell(true, false, false, Waiting, queue + [n]);
    assert [0][1..] == [];
    assert s.pollsters[0 := d] == [d] && s.cells[0 := c] == [c];
    assert s.finalized + [] == s.finalized;
  }

  lemma {:induction false} SettleAlone(capacity: nat, queue: seq<Token>, n: nat)
    ensures Next(Alone(capacity, Waiting, queue, Delivering(n, true, [], true), n + 1, n + 1, []), Settle(0))
            == Some(Alone(capacity, Waiting, queue, Idle, n + 1, n + 1, []))
  {
    hide Numbers, Zeros;
    var s := Alone(capacity, Waiting, queue, Delivering(n, true, [], true), n + 1, n + 1, []);
    assert s.pollsters[0 := Idle] == [Idle];
  }

  /** The cell, alone, receives the head of its queue, idling or not. */
  lemma {:induction false} ReceiveAlone(capacity: nat, n: nat, t: Token, rest: seq<Token>, finalized: seq<Token>, idle: bool)
    ensures Next(Alone(capacity, Waiting, [t] + rest, Idle, n, n, finalized), if idle then IdleReceive(0) else Receive(0))
            == Some(Alone(capacity, if idle then Returning(t) else Handling(t), rest, Idle, n, n, finalized))
  {
    hide Numbers, Zeros;
    var s := Alone(capacity, Waiting, [t] + rest, Idle, n, n, finalized);
    var c := Cell(true, false, false, if idle then Returning(t) else Handling(t), rest);
    assert ([t] + rest)[1..] == rest && s.cells[0 := c] == [c] && finalized + [] == finalized;
  }

  lemma {:induction false} PutBackAlone(capacity: nat, n: nat, t: Token, queue: seq<Token>, finalized: seq<Token>)
    requires |queue| < capacity
    ensures Next(Alone(capacity, Returning(t), queue, Idle, n, n, finalized), PutBack(0))
            == Some(Alone(capacity, Waiting, queue + [t], Idle, n, n, finalized))
  {
    hide Numbers, Zeros;
    var s := Alone(capacity, Returning(t), queue, Idle, n, n, finalized);
    var c := Cell(true, false, false, Waiting, queue + [t]);
    assert s.cells[0 := c] == [c] && finalized + [] == finalized;
  }

  lemma {:induction false} HandledAlone(capacity: nat, n: nat, t: Token, queue: seq<Token>, finalized: seq<Token>)
    ensures Next(Alone(capacity, Handling(t), queue, Idle, n, n, finalized), Handled(0))
            == Some(Alone(capacity, Waiting, queue, Idle, n, n, finalized + [t]))
  {
    hide Numbers, Zeros;
    var s := Alone(capacity, Handling(t), queue, Idle, n, n, finalized);
    var c := Cell(true, false, false, Waiting, queue);
    assert s.cells[0 := c] == [c];
  }

  /** Two events are handed off; the cell, idling, takes the first and puts it
      back behind the second. */
  function Reordered(capacity: nat): seq<Sys>
  {
    [ Alone(capacity, Waiting, [], Idle, 0, 0, []),
      Alone(capacity, Waiting, [], Delivering(0, true, [0], false), 1, 0, []),
      Alone(capacity, Waiting, [0], Delivering(0, true, [], true), 1, 1, []),
      Alone(capacity, Waiting, [0], Idle, 1, 1, []),
      Alone(capacity, Waiting, [0], Delivering(1, true, [0], false), 2, 1, []),
      Alone(capacity, Waiting, [0, 1], Delivering(1, true, [], true), 2, 2, []),
      Alone(capacity, Waiting, [0, 1], Idle, 2, 2, []),
      Alone(capacity, Returning(0), [1], Idle, 2, 2, []),
      Alone(capacity, Waiting, [1, 0], Idle, 2, 2, []),
      Alone(capacity, Handling(1), [0], Idle, 2, 2, []),
      Alone(capacity, Waiting, [0], Idle, 2, 2, [1]),
      Alone(capacity, Handling(0), [], Idle, 2, 2, [1]) ]
  }

  lemma {:induction false} ReorderedIsRun(capacity: nat)
    requires capacity >= 2
    ensures Run(Reordered(capacity), REORDERING)
  {
    assert Initial(Reordered(capacity)[0]);
    hide Next, Initial, Alone;
    HandOffs(capacity);
    Exchanges(capacity);
    forall k | 0 <= k < |REORDERING| ensures Next(Reordered(capacity)[k], REORDERING[k]) == Some(Reordered(capacity)[k + 1]) {
      assert Follows(capacity, k);
    }
  }

  ghost predicate Follows(capacity: nat, k: nat)
    requires k < 11
  {
    Next(Reordered(capacity)[k], REORDERING[k]) == Some(Reordered(capacity)[k + 1])
  }

  lemma {:induction false} HandOffs(capacity: nat)
    requires capacity >= 2
    ensures forall k :: 0 <= k < 6 ==> Follows(capacity, k)
  {
    hide Next, Alone;
    assert [] + [0] == [0] && [0] + [1] == [0, 1];
    PollAlone(capacity, [], 0);
    OfferAlone(capacity, [], 0);
    SettleAlone(capacity, [0], 0);
    PollAlone(capacity, [0], 1);
    OfferAlone(capacity, [0], 1);
    SettleAlone(capacity, [0, 1], 1);
    assert Follows(capacity, 0) && Follows(capacity, 1) && Follows(capacity, 2);
    assert Follows(capacity, 3) && Follows(capacity, 4) && Follows(capacity, 5);
  }

  lemma {:induction false} Exchanges(capacity: nat)
    requires capacity >= 2
    ensures forall k :: 6 <= k < 11 ==> Follows(capacity, k)
  {
    hide Next, Alone;
    var nobody: seq<Token> := [];
    assert [0] + [1] == [0, 1] && [1] + [0] == [1, 0] && [0] + nobody == [0] && nobody + [1] == [1];
    ReceiveAlone(capacity, 2, 0, [1], [], true);
    PutBackAlone(capacity, 2, 0, [1], []);
    ReceiveAlone(capacity, 2, 1, [0], [], false);
    HandledAlone(capacity, 2, 1, [0], []);
    ReceiveAlone(capacity, 2, 0, [], [1], false);
    assert Follows(capacity, 6) && Follows(capacity, 7) && Follows(capacity, 8) && Follows(capacity, 9) && Follows(capacity, 10);
  }

  /** A cell handles its events in the order of the hand-offs in every run exactly
      if it never idles or its queue has room for no more than one event. */
  lemma {:induction false} KeepsOrderExactly(inbound: bool, capacity: nat)
    ensures (forall states: seq<Sys>, steps: seq<Step>, i: nat ::
               Run(states, steps) && i < |states[0].cells| && states[0].cells[i].inbound == inbound && states[0].capacity == capacity ==>
                 InOrder(states, i))
            <==> !inbound || capacity <= 1
  {
    hide Run, InOrder;
    RunsStart();
    if !inbound || capacity <= 1 {
      forall states: seq<Sys>, steps: seq<Step>, i: nat |
        Run(states, steps) && i < |states[0].cells| && states[0].cells[i].inbound == inbound && states[0].capacity == capacity
        ensures InOrder(states, i)
      {
        SteadyCellsKeepOrder(states, steps, i);
      }
    } else {
      ReorderedIsRun(capacity);
      OutOfOrder(capacity);
      assert Run(Reordered(capacity), REORDERING) && !InOrder(Reordered(capacity), 0);
    }
  }

  lemma {:induction false} RunsStart()
    ensures forall states: seq<Sys>, steps: seq<Step> :: Run(states, steps) ==> |states| > 0
  {
  }

  lemma {:induction false} OutOfOrder(capacity: nat)
    ensures !InOrder(Reordered(capacity), 0) && |Reordered(capacity)| > 0
    ensures var s := Reordered(capacity)[0]; |s.cells| == 1 && s.cells[0].inbound && s.capacity == capacity
  {
    var states := Reordered(capacity);
    assert Handles(states[9], 0) && Handles(states[11], 0);
    assert states[9].cells[0].loop.token == 1 && states[11].cells[0].loop.token == 0;
  }

  // ------------------------------------------------------------ every run

  ghost predicate Invariant(s: Sys) { Conserved(s) && Accounted(s) }

  lemma {:induction false} InitialInvariant(s: Sys)
    requires Initial(s)
    ensures Invariant(s) && Phased(s)
  {
    EmptyLoad(s.cells);
  }

  lemma {:induction false} EmptyLoad(cells: seq<Cell>)
    requires forall i :: 0 <= i < |cells| ==> OfCell(cells[i]) == multiset{}
    ensures Load(cells) == multiset{}
  {
    if cells != [] { EmptyLoad(cells[..|cells| - 1]); }
  }

  lemma {:induction false} RunKeeps(states: seq<Sys>, steps: seq<Step>, k: nat)
    requires Run(states, steps) && k < |states|
    ensures Invariant(states[k])
  {
    hide Conserved, Accounted, Phased, Initial, Next;
    if k == 0 {
      InitialInvariant(states[0]);
    } else {
      RunKeeps(states, steps, k - 1);
      assert Next(states[k - 1], steps[k - 1]) == Some(states[k]);
      StepConserves(states[k - 1], steps[k - 1]);
      StepAccounts(states[k - 1], steps[k - 1]);
    }
  }

  /** Up to state k, loops are launched late at most for the cells of the set. */
  ghost predicate LateOnly(states: seq<Sys>, steps: seq<Step>, k: nat, cells: set<nat>)
    requires k <= |steps| && k <= |states|
  {
    forall j :: 0 <= j < k && Late(states[j], steps[j]) ==> steps[j].i in cells
  }

  lemma {:induction false} RunPhases(states: seq<Sys>, steps: seq<Step>, k: nat)
    requires Run(states, steps) && k < |states| && LateOnly(states, steps, k, {})
    ensures Phased(states[k])
  {
    hide Phased, Initial, Next, Late;
    if k == 0 {
      InitialInvariant(states[0]);
    } else {
      RunPhases(states, steps, k - 1);
      assert Next(states[k - 1], steps[k - 1]) == Some(states[k]);
      StepPhases(states[k - 1], steps[k - 1]);
    }
  }

  /** A loop has ended only if its cell was cancelled or has failed, and pollsters
      go only when the host stops. */
  ghost predicate Justified(s: Sys)
  {
    && (forall i :: 0 <= i < |s.cells| && s.cells[i].loop.Ended? ==> s.cells[i].cancelled || s.cells[i].failed)
    && (forall p :: 0 <= p < |s.pollsters| && s.pollsters[p].Gone? ==> !s.host.Serving?)
  }

  lemma {:induction false} StepJustified(s: Sys, step: Step)
    requires Justified(s) && Next(s, step).Some?
    ensures Justified(Next(s, step).value)
  {
    hide AllGone, AllEnded, CellEffect, Deliver, Drained;
    if step.JoinPollsters? {
      assert Next(s, step).value.cells == AllCancelled(s.cells);
    } else if !(step.CloseStop? || step.JoinLoops? || step.FinalDrain? || step.PollDirect? || step.PollBroadcast? || step.Offer? || step.Settle? || step.Leave?) {
      EffectJustified(s, step.i, step);
    } else {
      KeepsLoops(s, step);
    }
  }

  lemma {:induction false} EffectJustified(s: Sys, i: nat, step: Step)
    requires i < |s.cells| && CellEffect(s, i, step).Some?
    requires s.cells[i].loop.Ended? ==> s.cells[i].cancelled || s.cells[i].failed
    ensures var c := CellEffect(s, i, step).value.cell; c.loop.Ended? ==> c.cancelled || c.failed
  {
  }

  lemma {:induction false} KeepsLoops(s: Sys, step: Step)
    requires Next(s, step).Some?
    requires step.CloseStop? || step.JoinLoops? || step.FinalDrain? || step.PollDirect? || step.PollBroadcast? || step.Offer? || step.Settle? || step.Leave?
    ensures var r := Next(s, step).value;
            |r.cells| == |s.cells| && forall i :: 0 <= i < |s.cells| ==>
              r.cells[i].loop == s.cells[i].loop && r.cells[i].cancelled == s.cells[i].cancelled && r.cells[i].failed == s.cells[i].failed
  {
    hide AllGone, AllEnded, CellEffect;
  }

  /** In every run nobody stops of its own accord. */
  lemma {:induction false} NobodyStopsUnasked(states: seq<Sys>, steps: seq<Step>, k: nat)
    requires Run(states, steps) && k < |states|
    ensures Justified(states[k])
  {
    hide Next, Justified;
    if k == 0 {
      JustifiedAtFirst(states[0]);
    } else {
      hide Initial;
      NobodyStopsUnasked(states, steps, k - 1);
      assert Next(states[k - 1], steps[k - 1]) == Some(states[k]);
      StepJustified(states[k - 1], steps[k - 1]);
    }
  }

  lemma {:induction false} JustifiedAtFirst(s: Sys)
    requires Initial(s)
    ensures Justified(s)
  {
  }

  lemma {:induction false} IssuedOnce(n: nat, t: Token)
    ensures Issued(n)[t] == if t < n then 1 else 0
  {
    if n > 0 { IssuedOnce(n - 1, t); }
  }

  /** At any moment: nothing is finalized twice, nothing that was not handed off. */
  lemma {:induction false} NeverTwice(states: seq<Sys>, steps: seq<Step>, k: nat, t: Token)
    requires Run(states, steps) && k < |states|
    ensures multiset(states[k].finalized)[t] <= if t < |states[k].origin| then 1 else 0
  {
    hide Run, Accounted, Phased, Load, Issued;
    RunKeeps(states, steps, k);
    IssuedOnce(|states[k].origin|, t);
    assert (Load(states[k].cells) + multiset(states[k].finalized))[t] == Issued(|states[k].origin|)[t];
  }

  /** Every hand-off has been finalized exactly once, and so has every event that
      reached no cell. */
  ghost predicate AllFinalized(s: Sys)
  {
    && (forall t :: 0 <= t < |s.origin| ==> multiset(s.finalized)[t] == 1) && |s.finalized| == |s.origin|
    && (forall e: nat :: e < s.polled ==> multiset(s.dropped)[e] == if e in s.origin then 0 else 1)
  }

  /** When the host is done and no loop was launched late, all is finalized. */
  lemma {:induction false} EveryEventFinalizedOnce(states: seq<Sys>, steps: seq<Step>, k: nat)
    requires Run(states, steps) && k < |states| && states[k].host.Done? && LateOnly(states, steps, k, {})
    ensures AllFinalized(states[k])
  {
    hide Run, Load, Issued, LateOnly;
    RunKeeps(states, steps, k);
    RunPhases(states, steps, k);
    NothingLeft(states[k]);
  }

  lemma {:induction false} NothingLeft(s: Sys)
    requires Invariant(s) && AllGone(s) && forall i :: 0 <= i < |s.cells| ==> Empty(s.cells[i])
    ensures AllFinalized(s)
  {
    hide Load, Issued;
    EmptyLoad(s.cells);
    assert multiset(s.finalized) == Issued(|s.origin|);
    forall t | 0 <= t < |s.origin| ensures multiset(s.finalized)[t] == 1 { IssuedOnce(|s.origin|, t); }
    forall e: nat | e < s.polled ensures multiset(s.dropped)[e] == if e in s.origin then 0 else 1 { assert !InProgress(s, e) && DroppedRight(s, e); }
    IssuedSize(|s.origin|);
    assert |multiset(s.finalized)| == |s.finalized|;
  }

  lemma {:induction false} IssuedSize(n: nat)
    ensures |Issued(n)| == n
  {
    if n > 0 { IssuedSize(n - 1); }
  }

  // ------------------------------------------------------------ late reloads

  lemma {:induction false} StepUnfed(s: Sys, step: Step)
    requires Unfed(s) && Next(s, step).Some?
    ensures Unfed(Next(s, step).value)
  {
    hide CellEffect, Deliver, AllEnded, Drained;
    if step.PollDirect? || step.PollBroadcast? || step.Offer? || step.Settle? || step.Leave? { assert !AllGone(s); }
  }

  /** Without room in the queues no cell ever has anything before it. */
  ghost predicate AllEmpty(s: Sys) { s.capacity == 0 && forall i :: 0 <= i < |s.cells| ==> Empty(s.cells[i]) }

  lemma {:induction false} StepEmpty(s: Sys, step: Step)
    requires AllEmpty(s) && Next(s, step).Some?
    ensures AllEmpty(Next(s, step).value)
  {
    hide AllGone, AllEnded;
    if step.JoinPollsters? { assert Next(s, step).value.cells == AllCancelled(s.cells); }
  }

  lemma {:induction false} RunEmpty(states: seq<Sys>, steps: seq<Step>, k: nat)
    requires Run(states, steps) && k < |states|
    ensures Unfed(states[k]) && (states[0].capacity == 0 ==> AllEmpty(states[k]))
  {
    hide Next, Unfed, AllEmpty;
    if k == 0 {
      EmptyAtFirst(states[0]);
    } else {
      hide Initial;
      RunEmpty(states, steps, k - 1);
      assert Next(states[k - 1], steps[k - 1]) == Some(states[k]);
      StepUnfed(states[k - 1], steps[k - 1]);
      if states[0].capacity == 0 { StepEmpty(states[k - 1], steps[k - 1]); }
    }
  }

  lemma {:induction false} EmptyAtFirst(s: Sys)
    requires Initial(s)
    ensures Unfed(s) && (s.capacity == 0 ==> AllEmpty(s))
  {
  }

  /** n cells of which all but the i-th failed to start. */
  function Row(n: nat, i: nat, c: Cell, cancelled: bool): (r: seq<Cell>)
    ensures |r| == n && forall j :: 0 <= j < n ==> r[j] == if j == i then c else Cell(false, true, cancelled, Ended, [])
  {
    seq(n, j => if j == i then c else Cell(false, true, cancelled, Ended, []))
  }

  /** Before the only event is handed off to the i-th of n cells, and after. */
  function Lone(n: nat, i: nat, capacity: nat, c: Cell, p: Pollster, host: Host, polled: nat, sent: bool): Sys
  {
    Sys(capacity, Row(n, i, c, !host.Serving? && !host.Stopping?), [p], host, polled,
        if sent then [0] else [], if sent then [i] else [], [], [])
  }

  /** The loop of the cell, with the event in the queue or not. */
  function Alive(cancelled: bool, loop: Loop, queued: bool): Cell { Cell(false, false, cancelled, loop, if queued then [0] else []) }

  /** A reload stops the loop of the cell; while it loads the new module the event
      arrives, and the host stops; when the host has joined the loops the reload
      launches the new one, which takes the event before the host can drain it. */
  function Overtaken(n: nat, i: nat, capacity: nat, k: nat): Sys
  {
    if k == 0 then Lone(n, i, capacity, Alive(false, Waiting, false), Idle, Serving, 0, false)
    else if k == 1 then Lone(n, i, capacity, Alive(true, Waiting, false), Idle, Serving, 0, false)
    else if k == 2 then Lone(n, i, capacity, Alive(true, Ended, false), Idle, Serving, 0, false)
    else if k == 3 then Lone(n, i, capacity, Alive(true, Ended, false), Delivering(0, true, [i], false), Serving, 1, false)
    else if k == 4 then Lone(n, i, capacity, Alive(true, Ended, true), Delivering(0, true, [], true), Serving, 1, true)
    else if k == 5 then Lone(n, i, capacity, Alive(true, Ended, true), Idle, Serving, 1, true)
    else if k == 6 then Lone(n, i, capacity, Alive(true, Ended, true), Idle, Stopping, 1, true)
    else if k == 7 then Lone(n, i, capacity, Alive(true, Ended, true), Gone, Stopping, 1, true)
    else if k == 8 then Lone(n, i, capacity, Alive(true, Ended, true), Gone, Cancelling, 1, true)
    else if k == 9 then Lone(n, i, capacity, Alive(true, Ended, true), Gone, Draining(0), 1, true)
    else if k == 10 then Lone(n, i, capacity, Alive(false, Waiting, true), Gone, Draining(0), 1, true)
    else Lone(n, i, capacity, Alive(false, Handling(0), false), Gone, if k <= n + 11 then Draining(k - 11) else Done, 1, true)
  }

  function Overtaking(i: nat, k: nat): Step
  {
    if k == 0 then Cancel(i)
    else if k == 1 then Exit(i)
    else if k == 2 then PollDirect(0, i)
    else if k == 3 then Offer(0)
    else if k == 4 then Settle(0)
    else if k == 5 then CloseStop
    else if k == 6 then Leave(0)
    else if k == 7 then JoinPollsters
    else if k == 8 then JoinLoops
    else if k == 9 then Relaunch(i, true)
    else if k == 10 then Receive(i)
    else FinalDrain
  }

  function OvertakenStates(n: nat, i: nat, capacity: nat): seq<Sys> { seq(n + 13, k requires 0 <= k < n + 13 => Overtaken(n, i, capacity, k)) }

  function OvertakingSteps(n: nat, i: nat): seq<Step> { seq(n + 12, k requires 0 <= k < n + 12 => Overtaking(i, k)) }

  lemma {:induction false} RowUpdate(n: nat, i: nat, c: Cell, d: Cell, cancelled: bool)
    requires i < n
    ensures Row(n, i, c, cancelled)[i := d] == Row(n, i, d, cancelled)
  {
  }

  lemma {:induction false} RowCancelled(n: nat, i: nat, c: Cell)
    ensures AllCancelled(Row(n, i, c, false)) == Row(n, i, c.(cancelled := true), true)
  {
    hide AllCancelled, Row;
  }

  lemma {:induction false} HandedOver(n: nat, i: nat, capacity: nat, k: nat)
    requires i < n && capacity > 0 && k < 6
    ensures Next(Overtaken(n, i, capacity, k), Overtaking(i, k)) == Some(Overtaken(n, i, capacity, k + 1))
  {
    hide Row;
    RowUpdate(n, i, Alive(false, Waiting, false), Alive(true, Waiting, false), false);
    RowUpdate(n, i, Alive(true, Waiting, false), Alive(true, Ended, false), false);
    RowUpdate(n, i, Alive(true, Ended, false), Alive(true, Ended, true), false);
    var nobody: seq<nat> := [];
    assert nobody + [0] == [0] && nobody + [i] == [i] && [i][1..] == [] && nobody + nobody == nobody;
    forall p: Pollster, q: Pollster ensures [p][0 := q] == [q] {}
  }

  lemma {:induction false} StoppedAndJoined(n: nat, i: nat, capacity: nat, k: nat)
    requires i < n && 6 <= k < 9
    ensures Next(Overtaken(n, i, capacity, k), Overtaking(i, k)) == Some(Overtaken(n, i, capacity, k + 1))
  {
    hide Row, CellEffect, AllCancelled;
    RowCancelled(n, i, Alive(true, Ended, true));
    assert Alive(true, Ended, true).(cancelled := true) == Alive(true, Ended, true);
    assert [Idle][0 := Gone] == [Gone];
  }

  lemma {:induction false} LaunchedLate(n: nat, i: nat, capacity: nat, k: nat)
    requires i < n && 9 <= k < 11
    ensures Next(Overtaken(n, i, capacity, k), Overtaking(i, k)) == Some(Overtaken(n, i, capacity, k + 1))
  {
    hide Row;
    RowUpdate(n, i, Alive(true, Ended, true), Alive(false, Waiting, true), true);
    RowUpdate(n, i, Alive(false, Waiting, true), Alive(false, Handling(0), false), true);
    var one: seq<Token>, nobody: seq<Token> := [0], [];
    assert one[1..] == nobody && nobody + nobody == nobody;
  }

  lemma {:induction false} DrainedInVain(n: nat, i: nat, capacity: nat, k: nat)
    requires i < n && 11 <= k < n + 12
    ensures Next(Overtaken(n, i, capacity, k), Overtaking(i, k)) == Some(Overtaken(n, i, capacity, k + 1))
  {
    var c := Alive(false, Handling(0), false);
    var s := Lone(n, i, capacity, c, Gone, Draining(k - 11), 1, true);
    assert Overtaken(n, i, capacity, k) == s;
    if k < n + 11 {
      assert s.cells[k - 11].queue == [];
      assert Next(s, FinalDrain) == Some(Lone(n, i, capacity, c, Gone, Draining(k - 10), 1, true));
    } else {
      assert Next(s, FinalDrain) == Some(Lone(n, i, capacity, c, Gone, Done, 1, true));
    }
  }

  /** A run from the start to the end of the host in which an event is not finalized. */
  lemma {:induction false} OvertakenIsRun(n: nat, i: nat, capacity: nat)
    requires i < n && capacity > 0
    ensures Run(OvertakenStates(n, i, capacity), OvertakingSteps(n, i))
    ensures OvertakenStates(n, i, capacity)[n + 12].host.Done? && !AllFinalized(OvertakenStates(n, i, capacity)[n + 12])
    ensures LateOnly(OvertakenStates(n, i, capacity), OvertakingSteps(n, i), n + 12, {i})
  {
    var states, steps := OvertakenStates(n, i, capacity), OvertakingSteps(n, i);
    assert Initial(states[0]);
    assert multiset(states[n + 12].finalized)[0] == 0;
    hide Next, Initial;
    forall k | 0 <= k < |steps| ensures Next(states[k], steps[k]) == Some(states[k + 1]) {
      if k < 6 {
        HandedOver(n, i, capacity, k);
      } else if k < 9 {
        StoppedAndJoined(n, i, capacity, k);
      } else if k < 11 {
        LaunchedLate(n, i, capacity, k);
      } else {
        DrainedInVain(n, i, capacity, k);
      }
    }
  }

  /** A run of n cells to the end of the host, in which loops are launched late
      at most for the cells of the set. */
  ghost predicate RunsOut(states: seq<Sys>, steps: seq<Step>, k: nat, n: nat, capacity: nat, late: set<nat>)
  {
    && Run(states, steps) && k < |states| && states[k].host.Done? && LateOnly(states, steps, k, late)
    && |states[0].cells| == n && states[0].capacity == capacity
  }

  /** All is finalized whenever the host is done exactly if no cell may be reloaded
      after the loops were joined (or the queues have no room). */
  lemma {:induction false} FinalizesExactly(n: nat, capacity: nat, late: set<nat>)
    ensures (forall states: seq<Sys>, steps: seq<Step>, k: nat :: RunsOut(states, steps, k, n, capacity, late) ==> AllFinalized(states[k]))
            <==> capacity == 0 || forall i :: i in late ==> i >= n
  {
    hide Run, AllFinalized, LateOnly;
    if capacity == 0 || forall i :: i in late ==> i >= n {
      forall states: seq<Sys>, steps: seq<Step>, k: nat | RunsOut(states, steps, k, n, capacity, late) ensures AllFinalized(states[k]) {
        TimelyFinalizes(states, steps, k, n, capacity, late);
      }
    } else {
      var i :| i in late && i < n;
      OvertakenIsRun(n, i, capacity);
      OvertakenCounts(n, i, capacity, late);
      assert RunsOut(OvertakenStates(n, i, capacity), OvertakingSteps(n, i), n + 12, n, capacity, late);
    }
  }

  lemma {:induction false} TimelyFinalizes(states: seq<Sys>, steps: seq<Step>, k: nat, n: nat, capacity: nat, late: set<nat>)
    requires RunsOut(states, steps, k, n, capacity, late) && (capacity == 0 || forall i :: i in late ==> i >= n)
    ensures AllFinalized(states[k])
  {
    hide Run, AllFinalized, LateOnly;
    if capacity == 0 {
      RunKeeps(states, steps, k);
      RunEmpty(states, steps, k);
      NothingLeft(states[k]);
    } else {
      NoneLate(states, steps, k, late);
      EveryEventFinalizedOnce(states, steps, k);
    }
  }

  lemma {:induction false} OvertakenCounts(n: nat, i: nat, capacity: nat, late: set<nat>)
    requires i in late && LateOnly(OvertakenStates(n, i, capacity), OvertakingSteps(n, i), n + 12, {i})
    ensures LateOnly(OvertakenStates(n, i, capacity), OvertakingSteps(n, i), n + 12, late)
    ensures |OvertakenStates(n, i, capacity)[0].cells| == n && OvertakenStates(n, i, capacity)[0].capacity == capacity
  {
    hide Overtaking, Row, Late;
  }

  /** Only cells that exist can be reloaded. */
  lemma {:induction false} NoneLate(states: seq<Sys>, steps: seq<Step>, k: nat, late: set<nat>)
    requires Run(states, steps) && k < |states| && LateOnly(states, steps, k, late) && forall i :: i in late ==> i >= |states[0].cells|
    ensures LateOnly(states, steps, k, {})
  {
    hide Initial, Next, Late;
    forall j | 0 <= j < k ensures !Late(states[j], steps[j]) {
      assert Next(states[j], steps[j]) == Some(states[j + 1]);
      SameSize(states, steps, j);
      LateCell(states[j], steps[j]);
    }
  }

  lemma {:induction false} LateCell(s: Sys, step: Step)
    requires Next(s, step).Some?
    ensures Late(s, step) ==> step.i < |s.cells|
  {
    hide CellEffect;
  }

  lemma {:induction false} SameSize(states: seq<Sys>, steps: seq<Step>, k: nat)
    requires Run(states, steps) && k < |states|
    ensures |states[k].cells| == |states[0].cells|
  {
    hide Next, Initial, AllProceed, AllOrderly;
    if k > 0 {
      SameSize(states, steps, k - 1);
      assert Next(states[k - 1], steps[k - 1]) == Some(states[k]);
      SameNumber(states[k - 1], steps[k - 1]);
    }
  }

  lemma {:induction false} SameNumber(s: Sys, step: Step)
    requires Next(s, step).Some?
    ensures |Next(s, step).value.cells| == |s.cells|
  {
    hide CellEffect, Deliver, AllGone, AllEnded, Drained;
  }

  // ------------------------------------------------------------ broadcasts

  /** The target that pollster p offers its event to next. */
  function Target(s: Sys, p: nat): nat
  {
    if p < |s.pollsters| && s.pollsters[p].Delivering? && s.pollsters[p].pending != [] then s.pollsters[p].pending[0] else 0
  }

  /** The targets p made an offer to, from step j on and before step k. */
  ghost function OfferedTo(states: seq<Sys>, steps: seq<Step>, p: nat, j: nat, k: nat): seq<nat>
    requires k <= |steps| && k <= |states|
  {
    if k <= j then []
    else OfferedTo(states, steps, p, j, k - 1) + if steps[k - 1] == Offer(p) then [Target(states[k - 1], p)] else []
  }

  /** Those among them that were live when the offer was made. */
  ghost function LiveOffers(states: seq<Sys>, steps: seq<Step>, p: nat, j: nat, k: nat): seq<nat>
    requires k <= |steps| && k <= |states|
  {
    if k <= j then []
    else
      var to := Target(states[k - 1], p);
      LiveOffers(states, steps, p, j, k - 1) + if steps[k - 1] == Offer(p) && !Unreachable(states[k - 1], to) then [to] else []
  }

  /** The cells that hand-offs of event e were sent to, in order. */
  ghost function SentFor(origin: seq<nat>, sentTo: seq<nat>, e: nat): seq<nat>
    requires |origin| == |sentTo|
  {
    if origin == [] then []
    else
      var n := |origin| - 1;
      SentFor(origin[..n], sentTo[..n], e) + if origin[n] == e then [sentTo[n]] else []
  }

  /** Pollster p is broadcasting event e; what it still has to offer is `rest`. */
  ghost predicate Broadcasting(s: Sys, p: nat, e: nat, rest: seq<nat>)
  {
    Busy(s, p) && s.pollsters[p].event == e && !s.pollsters[p].direct && s.pollsters[p].pending == rest
  }

  /** So far every target taken from the list was offered the event, and those
      that were live have been sent it. */
  ghost predicate Spread(states: seq<Sys>, steps: seq<Step>, p: nat, e: nat, targets: seq<nat>, j: nat, k: nat)
    requires k <= |steps| && k < |states|
  {
    var done, s := OfferedTo(states, steps, p, j, k), states[k];
    && |done| <= |targets| && done == targets[..|done|] && Broadcasting(s, p, e, targets[|done|..])
    && |s.sentTo| == |s.origin| && SentFor(s.origin, s.sentTo, e) == LiveOffers(states, steps, p, j, k)
  }

  lemma {:induction false} SentMore(origin: seq<nat>, sentTo: seq<nat>, e: nat, f: nat, i: nat)
    requires |origin| == |sentTo|
    ensures SentFor(origin + [f], sentTo + [i], e) == SentFor(origin, sentTo, e) + if f == e then [i] else []
  {
    assert (origin + [f])[..|origin|] == origin && (sentTo + [i])[..|origin|] == sentTo;
  }

  lemma {:induction false} NothingSent(origin: seq<nat>, sentTo: seq<nat>, e: nat)
    requires |origin| == |sentTo| && e !in origin
    ensures SentFor(origin, sentTo, e) == []
  {
    if origin != [] { NothingSent(origin[..|origin| - 1], sentTo[..|origin| - 1], e); }
  }

  /** A step of somebody else leaves the broadcast and its hand-offs alone. */
  lemma {:induction false} OthersLeaveBroadcast(s: Sys, step: Step, p: nat, e: nat, rest: seq<nat>)
    requires Accounted(s) && AllOrderly(s) && Next(s, step).Some? && Broadcasting(s, p, e, rest)
    requires step != Offer(p) && step != Settle(p)
    ensures var r := Next(s, step).value;
            Broadcasting(r, p, e, rest) && |r.sentTo| == |r.origin| && SentFor(r.origin, r.sentTo, e) == SentFor(s.origin, s.sentTo, e)
  {
    hide CellEffect, Deliver, AllGone, AllEnded, Drained, Orderly, DroppedRight, BusySound;
    if step.Offer? {
      var d := s.pollsters[step.p];
      assert Busy(s, step.p) && Busy(s, p) && d.event != e;
      SentMore(s.origin, s.sentTo, e, d.event, d.pending[0]);
    }
  }

  /** An offer takes the next target off the list, and sends to it if it is live. */
  lemma {:induction false} OfferSpreads(s: Sys, p: nat, e: nat, rest: seq<nat>)
    requires Next(s, Offer(p)).Some? && Broadcasting(s, p, e, rest) && |s.sentTo| == |s.origin|
    ensures rest != [] && Target(s, p) == rest[0]
    ensures var r := Next(s, Offer(p)).value;
            && Broadcasting(r, p, e, rest[1..]) && |r.sentTo| == |r.origin|
            && SentFor(r.origin, r.sentTo, e) == SentFor(s.origin, s.sentTo, e) + if Unreachable(s, rest[0]) then [] else [rest[0]]
  {
    hide Deliver;
    SentMore(s.origin, s.sentTo, e, e, rest[0]);
    assert SentFor(s.origin, s.sentTo, e) + [] == SentFor(s.origin, s.sentTo, e);
  }

  lemma {:induction false} BroadcastStarts(s: Sys, p: nat, targets: seq<nat>)
    requires Accounted(s) && AllOrderly(s) && Next(s, PollBroadcast(p, targets)).Some?
    ensures var r := Next(s, PollBroadcast(p, targets)).value;
            Broadcasting(r, p, s.polled, targets) && |r.sentTo| == |r.origin| && SentFor(r.origin, r.sentTo, s.polled) == []
  {
    hide Orderly;
    NeverSeen(s, s.polled);
    NothingSent(s.origin, s.sentTo, s.polled);
  }

  lemma {:induction false} SpreadMore(states: seq<Sys>, steps: seq<Step>, p: nat, e: nat, targets: seq<nat>, j: nat, k: nat)
    requires j <= k < |steps| && k + 1 < |states| && Spread(states, steps, p, e, targets, j, k)
    requires Accounted(states[k]) && AllOrderly(states[k]) && Next(states[k], steps[k]) == Some(states[k + 1]) && steps[k] != Settle(p)
    ensures Spread(states, steps, p, e, targets, j, k + 1)
  {
    hide Accounted, AllOrderly, Next, SentFor, Broadcasting, Target, Unreachable;
    var done, s := OfferedTo(states, steps, p, j, k), states[k];
    var rest := targets[|done|..];
    if steps[k] == Offer(p) {
      OfferSpreads(s, p, e, rest);
      assert rest[1..] == targets[|done| + 1..] && targets[..|done| + 1] == done + [rest[0]];
      assert LiveOffers(states, steps, p, j, k) + [] == LiveOffers(states, steps, p, j, k);
    } else {
      OthersLeaveBroadcast(s, steps[k], p, e, rest);
      assert done + [] == done;
      assert LiveOffers(states, steps, p, j, k) + [] == LiveOffers(states, steps, p, j, k);
    }
  }

  /** In every run, between the poll of a broadcast and its end, whatever happens
      in between: the event is offered to every target once, in order, and has
      been sent to exactly those that were live when it was offered to them. */
  lemma {:induction false} BroadcastReachesLiveCells(states: seq<Sys>, steps: seq<Step>, p: nat, targets: seq<nat>, j: nat, k: nat)
    requires Run(states, steps) && j < k < |steps| && steps[j] == PollBroadcast(p, targets) && steps[k] == Settle(p)
    requires forall i :: j < i < k ==> steps[i] != Settle(p)
    ensures OfferedTo(states, steps, p, j + 1, k) == targets
    ensures |states[k].sentTo| == |states[k].origin|
    ensures SentFor(states[k].origin, states[k].sentTo, states[j].polled) == LiveOffers(states, steps, p, j + 1, k)
  {
    hide Conserved, Accounted, Phased, Initial, Next, SentFor, Broadcasting, AllOrderly, LiveOffers;
    var e := states[j].polled;
    RunKeeps(states, steps, j);
    QueuesAreBounded(states, steps, j);
    assert Next(states[j], steps[j]) == Some(states[j + 1]);
    BroadcastStarts(states[j], p, targets);
    SpreadNone(states, steps, p, e, targets, j + 1);
    for i := j + 1 to k
      invariant Spread(states, steps, p, e, targets, j + 1, i)
    {
      RunKeeps(states, steps, i);
      QueuesAreBounded(states, steps, i);
      assert Next(states[i], steps[i]) == Some(states[i + 1]);
      SpreadMore(states, steps, p, e, targets, j + 1, i);
    }
    assert Next(states[k], steps[k]) == Some(states[k + 1]);
    SettlesWhenEmpty(states[k], p, e, targets[|OfferedTo(states, steps, p, j + 1, k)|..]);
  }

  lemma {:induction false} SpreadNone(states: seq<Sys>, steps: seq<Step>, p: nat, e: nat, targets: seq<nat>, j: nat)
    requires j <= |steps| && j < |states| && Broadcasting(states[j], p, e, targets) && |states[j].sentTo| == |states[j].origin|
    requires SentFor(states[j].origin, states[j].sentTo, e) == []
    ensures Spread(states, steps, p, e, targets, j, j)
  {
    hide SentFor, Broadcasting;
    assert targets[..0] == [] && targets[0..] == targets;
  }

  lemma {:induction false} SettlesWhenEmpty(s: Sys, p: nat, e: nat, rest: seq<nat>)
    requires Next(s, Settle(p)).Some? && Broadcasting(s, p, e, rest)
    ensures rest == []
  {
  }

  // ------------------------------------------------------------ one cell, as code

  /** What one turn of a step loop may amount to when no other thread interferes. */
  ghost predicate Turn(before: Cell, after: Cell, finalized: seq<Token>, capacity: nat)
  {
    || (after == before && finalized == [])
    || (before.cancelled && after == before.(loop := Ended) && finalized == [])
    || (exists idle :: Take(before, idle).Some? &&
          Finish(Take(before, idle).value.cell, capacity) == Some(Effect(after, finalized)))
  }

  /** The system after the steps, if they can be taken one after the other. */
  function Taken(s: Sys, steps: seq<Step>): Option<Sys>
    decreases |steps|
  {
    if steps == [] then Some(s)
    else match Next(s, steps[0])
      case None => None
      case Some(r) => Taken(r, steps[1..])
  }

  function WithCell(s: Sys, i: nat, c: Cell, more: seq<Token>): Sys
    requires i < |s.cells|
  {
    s.(cells := s.cells[i := c], finalized := s.finalized + more)
  }

  /** The steps of a loop. */
  predicate OfLoop(step: Step, i: nat)
  {
    step == Exit(i) || step == Receive(i) || step == Handled(i) || step == IdleReceive(i) || step == PutBack(i)
  }

  /** A turn of the loop is no step, one, or two steps of its cell in the system. */
  lemma {:induction false} TurnIsSteps(s: Sys, i: nat, after: Cell, more: seq<Token>) returns (steps: seq<Step>)
    requires i < |s.cells| && s.cells[i].loop.Waiting? && Turn(s.cells[i], after, more, s.capacity)
    ensures |steps| <= 2 && (forall step :: step in steps ==> OfLoop(step, i))
    ensures Taken(s, steps) == Some(WithCell(s, i, after, more))
  {
    hide Taken, Take, Finish;
    var before := s.cells[i];
    if after == before && more == [] {
      steps := [];
      NoStep(s, i);
    } else if before.cancelled && after == before.(loop := Ended) && more == [] {
      steps := [Exit(i)];
      OneStep(s, Exit(i), WithCell(s, i, after, more));
    } else {
      var idle :| Take(before, idle).Some? && Finish(Take(before, idle).value.cell, s.capacity) == Some(Effect(after, more));
      TakenEffect(before, idle);
      var holding := Take(before, idle).value.cell;
      steps := if idle then [IdleReceive(i), PutBack(i)] else [Receive(i), Handled(i)];
      var t := WithCell(s, i, holding, []);
      assert Next(s, steps[0]) == Some(t);
      FinishStep(s, t, i, holding, after, more, steps[1]);
      TwoSteps(s, steps[0], t, steps[1], WithCell(s, i, after, more));
    }
  }

  lemma {:induction false} TakenEffect(c: Cell, idle: bool)
    requires Take(c, idle).Some?
    ensures Take(c, idle).value.finalized == []
    ensures if idle then Take(c, idle).value.cell.loop.Returning? else Take(c, idle).value.cell.loop.Handling?
  {
  }

  lemma {:induction false} FinishStep(s: Sys, t: Sys, i: nat, holding: Cell, after: Cell, more: seq<Token>, step: Step)
    requires i < |s.cells| && t == WithCell(s, i, holding, []) && Finish(holding, s.capacity) == Some(Effect(after, more))
    requires if holding.loop.Returning? then step == PutBack(i) else holding.loop.Handling? && step == Handled(i)
    ensures Next(t, step) == Some(WithCell(s, i, after, more))
  {
    hide Finish;
    assert s.finalized + [] == s.finalized && t.cells[i] == holding;
    assert s.cells[i := holding][i := after] == s.cells[i := after];
  }

  lemma {:induction false} NoStep(s: Sys, i: nat)
    requires i < |s.cells|
    ensures Taken(s, []) == Some(WithCell(s, i, s.cells[i], []))
  {
    assert s.cells[i := s.cells[i]] == s.cells && s.finalized + [] == s.finalized;
  }

  lemma {:induction false} OneStep(s: Sys, step: Step, r: Sys)
    requires Next(s, step) == Some(r)
    ensures Taken(s, [step]) == Some(r)
  {
    hide Next;
    assert [step][1..] == [];
    assert Taken(r, []) == Some(r);
  }

  lemma {:induction false} TwoSteps(s: Sys, first: Step, t: Sys, second: Step, r: Sys)
    requires Next(s, first) == Some(t) && Next(t, second) == Some(r)
    ensures Taken(s, [first, second]) == Some(r)
  {
    hide Next;
    OneStep(t, second, r);
    assert [first, second][1..] == [second];
  }

  function Times(n: nat, step: Step): (steps: seq<Step>)
    ensures |steps| == n
  {
    if n == 0 then [] else [step] + Times(n - 1, step)
  }

  /** Draining a queue is one step of the system for every event in it. */
  lemma {:induction false} DrainIsSteps(s: Sys, i: nat)
    requires i < |s.cells|
    ensures Taken(s, Times(|s.cells[i].queue|, DrainOne(i))) == Some(WithCell(s, i, s.cells[i].(queue := []), s.cells[i].queue))
    decreases |s.cells[i].queue|
  {
    hide Next;
    var queue := s.cells[i].queue;
    if queue == [] {
      NoStep(s, i);
    } else {
      var c := s.cells[i].(queue := queue[1..]);
      var t := WithCell(s, i, c, [queue[0]]);
      assert Next(s, DrainOne(i)) == Some(t) by { DrainStep(s, i); }
      DrainIsSteps(t, i);
      assert s.cells[i := c][i := c.(queue := [])] == s.cells[i := c.(queue := [])];
      assert s.finalized + [queue[0]] + queue[1..] == s.finalized + queue;
      assert Times(|queue|, DrainOne(i))[1..] == Times(|queue| - 1, DrainOne(i));
    }
  }

  lemma {:induction false} DrainStep(s: Sys, i: nat)
    requires i < |s.cells| && s.cells[i].queue != []
    ensures var queue := s.cells[i].queue;
            Next(s, DrainOne(i)) == Some(WithCell(s, i, s.cells[i].(queue := queue[1..]), [queue[0]]))
  {
  }

  /** How a turn went: the loop was stopped, received an event, was woken from
      idling by one, idled until the timer fired, or is still blocked; Idling is
      the first select of a cell that idles finding nothing. */
  datatype Way = Stopped | Received | Woken | TimedOut | Blocked | Idling

  /** Nothing to do for a cell that idles. */
  predicate Idles(c: Cell) { c.inbound && !c.cancelled && c.queue == [] }

  /** What offering the events does to the queue, and which of them are finalized. */
  function Offers(queue: seq<Token>, tokens: seq<Token>, capacity: nat): (seq<Token>, seq<Token>)
  {
    if tokens == [] then (queue, [])
    else
      var before, last := Offers(queue, tokens[..|tokens| - 1], capacity), tokens[|tokens| - 1];
      if |before.0| < capacity then (before.0 + [last], before.1) else (before.0, before.1 + [last])
  }

  class CellRuntime {
    const capacity: nat
    const inbound: bool
    var failed: bool
    var cancelled: bool
    var loop: Loop
    var queue: seq<Token>
    ghost var finalized: seq<Token>

    ghost function View(): Cell
      reads this
    {
      Cell(inbound, failed, cancelled, loop, queue)
    }

    constructor (capacity: nat, inbound: bool)
      ensures this.capacity == capacity && View() == Cell(inbound, false, false, Waiting, []) && finalized == []
    {
      this.capacity, this.inbound := capacity, inbound;
      failed, cancelled, loop, queue, finalized := false, false, Waiting, [], [];
    }

    /** A full queue drops the newest event, and finalizes it. */
    method Send(t: Token)
      modifies this`queue, this`finalized
      ensures var f := Deliver(old(View()), t, capacity); View() == f.cell && finalized == old(finalized) + f.finalized
    {
      if |queue| < capacity { queue := queue + [t]; } else { finalized := finalized + [t]; }
    }

    /** The first select of a turn, and the handling of the event it received. A
        loop that only reacts to events blocks while there is nothing to do; one
        that idles goes on to do so. */
    method Select() returns (way: Way)
      requires loop.Waiting?
      modifies this`loop, this`queue, this`finalized
      ensures way == Blocked <==> !inbound && !old(cancelled) && old(queue) == []
      ensures way == Idling <==> inbound && !old(cancelled) && old(queue) == []
      ensures way == Stopped ==> old(cancelled) && loop.Ended? && queue == old(queue) && finalized == old(finalized)
      ensures way == Received ==>
                loop.Waiting? && old(queue) != [] && queue == old(queue)[1..] && finalized == old(finalized) + [old(queue)[0]]
      ensures way in {Blocked, Idling} ==> View() == old(View()) && finalized == old(finalized)
      ensures way !in {Woken, TimedOut}
      ensures exists more :: finalized == old(finalized) + more && Turn(old(View()), View(), more, capacity)
    {
      ghost var before := View();
      assert finalized == finalized + [];
      if cancelled || queue != [] {
        var stop: bool := *;
        if cancelled && (stop || queue == []) {
          loop := Ended;
          return Stopped;
        }
        var t := queue[0];
        queue := queue[1..];
        loop := Handling(t);
        assert Take(before, false) == Some(Effect(View(), []));
        finalized := finalized + [t];
        loop := Waiting;
        return Received;
      }
      return if inbound then Idling else Blocked;
    }

    /** The second select of a loop that idles. An event that wakes it goes back to
        the tail of the queue, or is finalized if the queue is full by then. */
    method IdleWait(late: seq<Token>) returns (way: Way)
      requires loop.Waiting? && inbound
      modifies this`loop, this`queue, this`finalized
      ensures way in {Stopped, Woken, TimedOut}
      ensures way == Stopped ==> old(cancelled) && loop.Ended? && queue == old(queue) && finalized == old(finalized)
      ensures way == TimedOut ==> View() == old(View()) && finalized == old(finalized)
      ensures way == Woken ==>
                && loop.Waiting? && old(queue) != []
                && var rest := Offers(old(queue)[1..], late, capacity);
                   && queue == (if |rest.0| < capacity then rest.0 + [old(queue)[0]] else rest.0)
                   && finalized == old(finalized) + rest.1 + (if |rest.0| < capacity then [] else [old(queue)[0]])
      ensures late == [] ==> exists more :: finalized == old(finalized) + more && Turn(old(View()), View(), more, capacity)
    {
      ghost var before, finalized0 := View(), finalized;
      assert finalized == finalized + [];
      var choice: Way := *;
      if cancelled && choice == Stopped {
        loop := Ended;
        return Stopped;
      }
      if queue == [] || choice != Woken { return TimedOut; }
      var t := queue[0];
      queue := queue[1..];
      loop := Returning(t);
      ghost var holding := View();
      assert Take(before, true) == Some(Effect(holding, []));
      Arrive(late);
      assert late == [] ==> View() == holding && finalized == finalized0;
      loop := Waiting;
      ghost var finalized1 := finalized;
      Send(t);
      assert late == [] ==> Finish(holding, capacity) == Some(Effect(View(), finalized[|finalized1|..]));
      return Woken;
    }

    /** Events are handed over by other threads. */
    method Arrive(tokens: seq<Token>)
      modifies this`queue, this`finalized
      ensures queue == Offers(old(queue), tokens, capacity).0 && finalized == old(finalized) + Offers(old(queue), tokens, capacity).1
    {
      assert finalized == finalized + [];
      for i := 0 to |tokens|
        invariant queue == Offers(old(queue), tokens[..i], capacity).0
        invariant finalized == old(finalized) + Offers(old(queue), tokens[..i], capacity).1
      {
        assert tokens[..i + 1][..i] == tokens[..i];
        Send(tokens[i]);
      }
      assert tokens[..|tokens|] == tokens;
    }

    /** One turn of the loop, given what other threads do while the cell is stepped
        without an event, and between taking an event and putting it back. The way
        tells which of the selects decided it. */
    method TakeTurn(meanwhile: seq<Token>, stop: bool, late: seq<Token>) returns (way: Way)
      requires loop.Waiting?
      modifies this`loop, this`queue, this`finalized, this`cancelled
      // an event-only cell blocks exactly if there is nothing to do; otherwise it stops or handles the first event
      ensures way == Blocked <==> !inbound && !old(cancelled) && old(queue) == []
      ensures !inbound ==> way in {Blocked, Stopped, Received} && (!old(cancelled) && old(queue) != [] ==> way == Received)
      ensures way == Received <==> loop.Waiting? && !Idles(old(View())) && (old(queue) != [] || old(cancelled))
      ensures way == Received ==> old(queue) != [] && queue == old(queue)[1..] && finalized == old(finalized) + [old(queue)[0]]
      ensures way == Blocked ==> View() == old(View()) && finalized == old(finalized)
      ensures way == Stopped ==> (old(cancelled) || (Idles(old(View())) && stop)) && loop.Ended?
      ensures way == Stopped && !Idles(old(View())) ==> queue == old(queue) && finalized == old(finalized)
      // a cell that idles waits with the queue as others have filled it: nothing happens only on the timer
      ensures way in {Woken, TimedOut} ==> Idles(old(View())) && loop.Waiting?
      ensures Idles(old(View())) ==> way in {Stopped, Woken, TimedOut} && cancelled == stop
      ensures !Idles(old(View())) ==> cancelled == old(cancelled)
      ensures Idles(old(View())) && way in {Stopped, TimedOut} ==>
                var now := Offers([], meanwhile, capacity); queue == now.0 && finalized == old(finalized) + now.1
      ensures way == Woken ==>
                var now := Offers([], meanwhile, capacity);
                && now.0 != []
                && var rest := Offers(now.0[1..], late, capacity);
                   && queue == (if |rest.0| < capacity then rest.0 + [now.0[0]] else rest.0)
                   && finalized == old(finalized) + now.1 + rest.1 + (if |rest.0| < capacity then [] else [now.0[0]])
    {
      way := Select();
      if way == Idling {
        Arrive(meanwhile);
        cancelled := cancelled || stop;
        way := IdleWait(late);
      }
    }

    /** Everything still queued is finalized, in order. */
    method Drain()
      modifies this`queue, this`finalized
      ensures queue == [] && finalized == old(finalized) + old(queue)
    {
      while queue != []
        invariant finalized + queue == old(finalized) + old(queue)
        decreases |queue|
      {
        var t := queue[0];
        assert finalized + queue == finalized + [t] + queue[1..];
        queue := queue[1..];
        finalized := finalized + [t];
      }
    }
  }
}
