// The timed event queue: producers, pollers, stop and resume, in any order.
//
// Each action is one critical section under m_mut, or one step of a poller
// outside it.  Times are nanoseconds of the steady clock.
module EventQueue {

  const MILLISECOND := 1_000_000

  datatype Event = Event(id: nat, due: int)

  datatype Poller =
    | Outside
    | Polling                          // in the first wait of poll()
    | Holding(ev: Event, until: int, among: multiset<Event>)  // in wait_for, until its time-out
    | Returning(ev: Event)             // was notified, about to enqueue again

  // An event handed to a caller: when, and out of which queue it was taken.
  datatype Delivery = Delivery(ev: Event, at: int, among: multiset<Event>)

  datatype State = State(
    running: bool,
    queue: multiset<Event>,
    now: int,
    pollers: seq<Poller>,
    accepted: multiset<Event>,   // what producers got into the queue
    log: seq<Delivery>,
    dropped: multiset<Event>)    // what a stop discarded

  datatype Action =
    | Enqueue(ev: Event)
    | Poll(p: nat)
    | Pop(p: nat, ev: Event)
    | PollStopped(p: nat)
    | TimeOut(p: nat)
    | Notified(p: nat)
    | PutBack(p: nat)
    | Stop
    | Resume
    | Tick(ns: nat)

  function Initially(pollers: nat, now: int): State {
    State(true, multiset{}, now, seq(pollers, i => Outside), multiset{}, [], multiset{})
  }

  predicate IsTop(ev: Event, queue: multiset<Event>) {
    ev in queue && forall e :: e in queue ==> ev.due <= e.due
  }

  // How long wait_for waits: whole milliseconds, the rest is cut off.
  function WaitTime(due: int, now: int): int {
    if due <= now then 0 else (due - now) / MILLISECOND * MILLISECOND
  }

  function Move(s: State, p: nat, poller: Poller): State
    requires p < |s.pollers|
  {
    s.(pollers := s.pollers[p := poller])
  }

  // An action that is not possible changes nothing.
  function Next(s: State, a: Action): State {
    match a
    case Enqueue(ev) =>
      if s.running then s.(queue := s.queue + multiset{ev}, accepted := s.accepted + multiset{ev}) else s
    case Stop => if s.running then s.(running := false, dropped := s.dropped + s.queue, queue := multiset{}) else s
    case Resume => s.(running := true)
    case Tick(ns) => s.(now := s.now + ns)
    case Poll(p) => if p < |s.pollers| then Advance(s, a, p) else s
    case Pop(p, _) => if p < |s.pollers| then Advance(s, a, p) else s
    case PollStopped(p) => if p < |s.pollers| then Advance(s, a, p) else s
    case TimeOut(p) => if p < |s.pollers| then Advance(s, a, p) else s
    case Notified(p) => if p < |s.pollers| then Advance(s, a, p) else s
    case PutBack(p) => if p < |s.pollers| then Advance(s, a, p) else s
  }

  function Advance(s: State, a: Action, p: nat): State
    requires p < |s.pollers|
  {
    match s.pollers[p]
    case Outside => if a.Poll? then Move(s, p, Polling) else s
    case Polling =>
      if a.PollStopped? && !s.running then Move(s, p, Outside)
      else if a.Pop? && s.running && IsTop(a.ev, s.queue) then
        var u := s.(queue := s.queue - multiset{a.ev});
        if a.ev.due <= s.now then Move(u, p, Outside).(log := s.log + [Delivery(a.ev, s.now, s.queue)])
        else Move(u, p, Holding(a.ev, s.now + WaitTime(a.ev.due, s.now), s.queue))
      else s
    case Holding(ev, until, among) =>
      // After a time-out the source does not look at m_running again.
      if a.TimeOut? && s.now >= until then Move(s, p, Outside).(log := s.log + [Delivery(ev, s.now, among)])
      else if a.Notified? then Move(s, p, Returning(ev))
      else s
    case Returning(ev) =>
      if !a.PutBack? then s
      else if s.running then Move(s, p, Outside).(queue := s.queue + multiset{ev})
      else Move(s, p, Outside).(dropped := s.dropped + multiset{ev})
  }

  function Exec(s: State, acts: seq<Action>): State
    decreases |acts|
  {
    if acts == [] then s else Exec(Next(s, acts[0]), acts[1..])
  }

  // ----- Conservation ------------------------------------------------------

  function Held(p: Poller): multiset<Event> {
    if p.Holding? || p.Returning? then multiset{p.ev} else multiset{}
  }

  function Hands(ps: seq<Poller>): multiset<Event> {
    if ps == [] then multiset{} else Held(ps[0]) + Hands(ps[1..])
  }

  function Delivered(log: seq<Delivery>): multiset<Event> {
    if log == [] then multiset{} else Delivered(log[..|log| - 1]) + multiset{log[|log| - 1].ev}
  }

  lemma {:induction false} HandsUpdate(ps: seq<Poller>, p: nat, poller: Poller)
    requires p < |ps|
    ensures Hands(ps[p := poller]) + Held(ps[p]) == Hands(ps) + Held(poller)
    decreases |ps|
  {
    hide Held;
    if p == 0 {
      assert ps[0 := poller][1..] == ps[1..];
    } else {
      assert ps[p := poller][1..] == ps[1..][p - 1 := poller];
      HandsUpdate(ps[1..], p - 1, poller);
      Rearrange(Held(ps[0]), Hands(ps[1..]), Hands(ps[1..][p - 1 := poller]), Held(poller), Held(ps[p]));
    }
  }

  lemma {:induction false} NoHands(n: nat)
    ensures Hands(seq(n, i => Outside)) == multiset{}
  {
    if n == 0 {
    } else {
      var ps: seq<Poller> := seq(n, i => Outside);
      assert ps[1..] == seq(n - 1, i => Outside);
      NoHands(n - 1);
    }
  }

  lemma DeliveredSnoc(log: seq<Delivery>, d: Delivery)
    ensures Delivered(log + [d]) == Delivered(log) + multiset{d.ev}
  {
    assert (log + [d])[..|log|] == log;
  }

  predicate Conserved(s: State) {
    s.accepted == s.queue + Hands(s.pollers) + Delivered(s.log) + s.dropped
  }

  // Taken as the least of its queue, and handed over less than a millisecond
  // before it is due.
  predicate Timely(ev: Event, at: int, among: multiset<Event>) {
    IsTop(ev, among) && ev.due < at + MILLISECOND
  }

  predicate LogTimely(log: seq<Delivery>) {
    forall d :: d in log ==> Timely(d.ev, d.at, d.among)
  }

  predicate PollersTimely(ps: seq<Poller>) {
    forall p :: p in ps && p.Holding? ==> Timely(p.ev, p.until, p.among) && p.until <= p.ev.due
  }

  predicate Invariant(s: State) {
    && Conserved(s)
    && (!s.running ==> s.queue == multiset{})
    && LogTimely(s.log)
    && PollersTimely(s.pollers)
  }

  lemma Rearrange(a: multiset<Event>, h: multiset<Event>, h': multiset<Event>,
      new': multiset<Event>, was: multiset<Event>)
    requires h' + was == h + new'
    ensures (a + h') + was == (a + h) + new'
  {
    assert (a + h') + was == a + (h' + was);
    assert (a + h) + new' == a + (h + new');
  }

  lemma Rebalance(q: multiset<Event>, h: multiset<Event>, d: multiset<Event>, x: multiset<Event>, held: multiset<Event>,
      q': multiset<Event>, h': multiset<Event>, d': multiset<Event>, x': multiset<Event>, held': multiset<Event>)
    requires h' + held == h + held'
    requires q' + held' + d' + x' == q + held + d + x
    ensures q' + h' + d' + x' == q + h + d + x
  {
    forall e: Event ensures (q' + h' + d' + x')[e] == (q + h + d + x)[e] {
      assert (h' + held)[e] == (h + held')[e];
      assert (q' + held' + d' + x')[e] == (q + held + d + x)[e];
    }
  }

  lemma ConservedMove(s: State, u: State, p: nat, poller: Poller)
    requires p < |s.pollers| && Conserved(s) && u.pollers == s.pollers[p := poller] && u.accepted == s.accepted
    requires u.queue + Held(poller) + Delivered(u.log) + u.dropped
          == s.queue + Held(s.pollers[p]) + Delivered(s.log) + s.dropped
    ensures Conserved(u)
  {
    HandsUpdate(s.pollers, p, poller);
    Rebalance(s.queue, Hands(s.pollers), Delivered(s.log), s.dropped, Held(s.pollers[p]),
      u.queue, Hands(u.pollers), Delivered(u.log), u.dropped, Held(poller));
  }

  lemma TimelyMove(ps: seq<Poller>, p: nat, poller: Poller)
    requires p < |ps| && PollersTimely(ps)
    requires poller.Holding? ==> Timely(poller.ev, poller.until, poller.among) && poller.until <= poller.ev.due
    ensures PollersTimely(ps[p := poller])
  {
    hide Timely;
  }

  lemma TimelySnoc(log: seq<Delivery>, d: Delivery)
    requires LogTimely(log) && Timely(d.ev, d.at, d.among)
    ensures LogTimely(log + [d]) && Delivered(log + [d]) == Delivered(log) + multiset{d.ev}
  {
    hide Timely;
    DeliveredSnoc(log, d);
  }

  lemma WaitTimeBounds(due: int, now: int)
    requires due > now
    ensures 0 <= WaitTime(due, now) <= due - now < WaitTime(due, now) + MILLISECOND
  {
  }

  lemma AdvanceInvariant(s: State, a: Action, p: nat)
    requires Invariant(s) && p < |s.pollers|
    ensures Invariant(Advance(s, a, p))
  {
    hide Advance, Invariant, IsTop, WaitTime;
    match s.pollers[p]
    case Outside => PlainInvariant(s, a, p);
    case Polling =>
      if a.Pop? && s.running && IsTop(a.ev, s.queue) {
        PopInvariant(s, a, p);
      } else {
        PlainInvariant(s, a, p);
      }
    case Holding(_, _, _) => HoldingInvariant(s, a, p);
    case Returning(_) => PutBackInvariant(s, a, p);
  }

  // Steps that at most move a poller.
  lemma PlainInvariant(s: State, a: Action, p: nat)
    requires Invariant(s) && p < |s.pollers|
    requires s.pollers[p] == Outside || (s.pollers[p] == Polling && !(a.Pop? && s.running && IsTop(a.ev, s.queue)))
    ensures Invariant(Advance(s, a, p))
  {
    hide Conserved, LogTimely, PollersTimely, IsTop, Delivered, Hands;
    var u := Advance(s, a, p);
    TimelyMove(s.pollers, p, u.pollers[p]);
    ConservedMove(s, u, p, u.pollers[p]);
  }

  lemma PutBackInvariant(s: State, a: Action, p: nat)
    requires Invariant(s) && p < |s.pollers| && s.pollers[p].Returning?
    ensures Invariant(Advance(s, a, p))
  {
    hide Conserved, LogTimely, PollersTimely, IsTop, Delivered, Hands;
    if a.PutBack? {
      TimelyMove(s.pollers, p, Outside);
      ConservedMove(s, Advance(s, a, p), p, Outside);
    }
  }

  lemma HoldingInvariant(s: State, a: Action, p: nat)
    requires Invariant(s) && p < |s.pollers| && s.pollers[p].Holding?
    ensures Invariant(Advance(s, a, p))
  {
    hide Conserved, LogTimely, PollersTimely, IsTop, Delivered, Hands, WaitTime;
    var h, u := s.pollers[p], Advance(s, a, p);
    assert Timely(h.ev, h.until, h.among) by {
      HeldTimely(s.pollers, p);
    }
    if a.TimeOut? && s.now >= h.until {
      TimelySnoc(s.log, Delivery(h.ev, s.now, h.among));
      TimelyMove(s.pollers, p, Outside);
      ConservedMove(s, u, p, Outside);
    } else if a.Notified? {
      TimelyMove(s.pollers, p, Returning(h.ev));
      ConservedMove(s, u, p, Returning(h.ev));
    }
  }

  lemma HeldTimely(ps: seq<Poller>, p: nat)
    requires p < |ps| && PollersTimely(ps) && ps[p].Holding?
    ensures Timely(ps[p].ev, ps[p].until, ps[p].among)
  {
    hide Timely;
  }

  lemma PopInvariant(s: State, a: Action, p: nat)
    requires Invariant(s) && p < |s.pollers| && s.pollers[p] == Polling && a.Pop? && s.running && IsTop(a.ev, s.queue)
    ensures Invariant(Advance(s, a, p))
  {
    hide Conserved, LogTimely, PollersTimely, IsTop, Delivered, Hands, WaitTime;
    var ev, u := a.ev, Advance(s, a, p);
    TakeAndHold(s.queue, ev);
    if ev.due <= s.now {
      TimelySnoc(s.log, Delivery(ev, s.now, s.queue));
      TimelyMove(s.pollers, p, Outside);
      ConservedTake(s, u, p, Outside, ev);
    } else {
      WaitTimeBounds(ev.due, s.now);
      TimelyMove(s.pollers, p, u.pollers[p]);
      ConservedTake(s, u, p, u.pollers[p], ev);
    }
  }

  // An event that leaves the queue is either held or delivered.
  lemma ConservedTake(s: State, u: State, p: nat, poller: Poller, ev: Event)
    requires p < |s.pollers| && Conserved(s) && s.pollers[p] == Polling
    requires u.pollers == s.pollers[p := poller] && u.accepted == s.accepted && u.dropped == s.dropped
    requires u.queue + multiset{ev} == s.queue
    requires Held(poller) + Delivered(u.log) == Delivered(s.log) + multiset{ev}
    ensures Conserved(u)
  {
    hide Conserved, Hands, Delivered;
    assert u.queue + Held(poller) + Delivered(u.log) == u.queue + (Held(poller) + Delivered(u.log));
    assert u.queue + (Delivered(s.log) + multiset{ev}) == (u.queue + multiset{ev}) + Delivered(s.log);
    assert Held(s.pollers[p]) == multiset{};
    assert s.queue + Held(s.pollers[p]) + Delivered(s.log) == s.queue + Delivered(s.log);
    ConservedMove(s, u, p, poller);
  }

  lemma TakeAndHold(queue: multiset<Event>, ev: Event)
    requires IsTop(ev, queue)
    ensures queue - multiset{ev} + multiset{ev} == queue
  {
  }

  lemma NextInvariant(s: State, a: Action)
    requires Invariant(s)
    ensures Invariant(Next(s, a))
  {
    hide Timely, LogTimely, PollersTimely, Delivered, Hands, Advance;
    match a
    case Poll(p) => if p < |s.pollers| { AdvanceInvariant(s, a, p); }
    case Pop(p, _) => if p < |s.pollers| { AdvanceInvariant(s, a, p); }
    case PollStopped(p) => if p < |s.pollers| { AdvanceInvariant(s, a, p); }
    case TimeOut(p) => if p < |s.pollers| { AdvanceInvariant(s, a, p); }
    case Notified(p) => if p < |s.pollers| { AdvanceInvariant(s, a, p); }
    case PutBack(p) => if p < |s.pollers| { AdvanceInvariant(s, a, p); }
    case _ =>
  }

  lemma {:induction false} Reachable(s: State, acts: seq<Action>)
    requires Invariant(s)
    ensures Invariant(Exec(s, acts))
    decreases |acts|
  {
    hide Invariant, Next;
    if acts == [] {
    } else {
      NextInvariant(s, acts[0]);
      Reachable(Next(s, acts[0]), acts[1..]);
    }
  }

  // Every accepted event is, at every moment of every interleaving, in exactly
  // one place; every delivery was the least of its queue and less than a
  // millisecond early; and no poller waits past the time its event is due.
  lemma EveryInterleaving(pollers: nat, now: int, acts: seq<Action>)
    ensures var s := Exec(Initially(pollers, now), acts);
            && s.accepted == s.queue + Hands(s.pollers) + Delivered(s.log) + s.dropped
            && (forall d :: d in s.log ==> d.ev in d.among && d.ev.due < d.at + 1_000_000)
            && (forall d, e :: d in s.log && e in d.among ==> d.ev.due <= e.due)
            && (forall p :: p in s.pollers && p.Holding? ==> p.until <= p.ev.due < p.until + 1_000_000)
            && (Stop !in acts ==> s.running && s.dropped == multiset{})
  {
    NoHands(pollers);
    Reachable(Initially(pollers, now), acts);
    if Stop !in acts {
      NoStopNoLoss(Initially(pollers, now), acts);
    }
    hide Exec, Hands, Delivered;
  }

  // What a poller takes out of the queue is the least there, whole, while the
  // queue runs: it is delivered at once if due, and else held for a whole number
  // of milliseconds.
  lemma PopMeans(s: State, p: nat, ev: Event)
    requires p < |s.pollers| && Next(s, Pop(p, ev)) != s
    ensures var u := Next(s, Pop(p, ev));
            && s.running && u.running && s.pollers[p] == Polling
            && ev in s.queue && (forall e :: e in s.queue ==> ev.due <= e.due)
            && u.queue == s.queue - multiset{ev} && u.accepted == s.accepted && u.dropped == s.dropped
            && (ev.due <= s.now ==>
                  u.pollers == s.pollers[p := Outside] && u.log == s.log + [Delivery(ev, s.now, s.queue)])
            && (ev.due > s.now ==>
                  && u.log == s.log && u.pollers[p].Holding? && u.pollers[p].ev == ev
                  && u.pollers[p].among == s.queue
                  && (u.pollers[p].until - s.now) % 1_000_000 == 0
                  && u.pollers[p].until <= ev.due < u.pollers[p].until + 1_000_000)
  {
    if ev.due > s.now {
      WholeMilliseconds(ev.due - s.now);
    }
  }

  lemma WholeMilliseconds(d: int)
    requires d > 0
    ensures var w := d / MILLISECOND * MILLISECOND; w % 1_000_000 == 0 && 0 <= w <= d < w + 1_000_000
  {
  }

  // Events are lost only through a stop.
  lemma {:induction false} NoStopNoLoss(s: State, acts: seq<Action>)
    requires s.running && Stop !in acts
    ensures Exec(s, acts).running && Exec(s, acts).dropped == s.dropped
    decreases |acts|
  {
    if acts == [] {
    } else {
      NoStopStep(s, acts[0]);
      NoStopNoLoss(Next(s, acts[0]), acts[1..]);
    }
  }

  lemma NoStopStep(s: State, a: Action)
    requires s.running && a != Stop
    ensures Next(s, a).running && Next(s, a).dropped == s.dropped
  {
    hide IsTop, WaitTime;
  }

  // A queue that holds something always has a least element to pop.
  lemma {:induction false} TopExists(queue: multiset<Event>)
    requires queue != multiset{}
    ensures exists ev :: IsTop(ev, queue)
    decreases |queue|
  {
    var e :| e in queue;
    var rest := queue - multiset{e};
    if rest == multiset{} {
      assert queue == multiset{e};
      assert IsTop(e, queue);
    } else {
      TopExists(rest);
      var t :| IsTop(t, rest);
      assert queue == rest + multiset{e};
      assert IsTop(if t.due <= e.due then t else e, queue);
    }
  }

  lemma {:induction false} ExecConcat(s: State, a: seq<Action>, b: seq<Action>)
    ensures Exec(s, a + b) == Exec(Exec(s, a), b)
    decreases |a|
  {
    hide Next;
    if a == [] {
      assert a + b == b;
    } else {
      assert (a + b)[1..] == a[1..] + b;
      ExecConcat(Next(s, a[0]), a[1..], b);
    }
  }

  lemma ExecOne(s: State, a: Action)
    ensures Exec(s, [a]) == Next(s, a)
  {
    assert [a][1..] == [];
  }

  // ----- After a stop ------------------------------------------------------

  // Some poll() is in its timed wait.
  predicate AnyHolding(s: State) {
    exists p :: 0 <= p < |s.pollers| && s.pollers[p].Holding?
  }

  // The events of the polls in their timed wait.
  function Waits(ps: seq<Poller>): multiset<Event> {
    if ps == [] then multiset{} else Waited(ps[0]) + Waits(ps[1..])
  }

  function Waited(p: Poller): multiset<Event> {
    if p.Holding? then multiset{p.ev} else multiset{}
  }

  lemma {:induction false} WaitsUpdate(ps: seq<Poller>, p: nat, poller: Poller)
    requires p < |ps|
    ensures Waits(ps[p := poller]) + Waited(ps[p]) == Waits(ps) + Waited(poller)
    decreases |ps|
  {
    hide Waited;
    if p == 0 {
      assert ps[0 := poller][1..] == ps[1..];
    } else {
      assert ps[p := poller][1..] == ps[1..][p - 1 := poller];
      WaitsUpdate(ps[1..], p - 1, poller);
      Rearrange(Waited(ps[0]), Waits(ps[1..]), Waits(ps[1..][p - 1 := poller]), Waited(poller), Waited(ps[p]));
    }
  }

  // What steps of a stopped queue can do: nothing is accepted, and only what
  // was waited for is delivered.
  predicate StoppedTo(s: State, u: State) {
    && !u.running && s.log <= u.log && u.accepted == s.accepted
    && Delivered(u.log) + Waits(u.pollers) <= Delivered(s.log) + Waits(s.pollers)
    && (!AnyHolding(s) ==> u.log == s.log && !AnyHolding(u))
  }

  lemma Exchange(d: multiset<Event>, w: multiset<Event>, was: multiset<Event>,
      d': multiset<Event>, w': multiset<Event>, is': multiset<Event>)
    requires w' + was == w + is' && d' + is' <= d + was
    ensures d' + w' <= d + w
  {
    forall e: Event ensures (d' + w')[e] <= (d + w)[e] {
      assert (w' + was)[e] == (w + is')[e];
      assert (d' + is')[e] <= (d + was)[e];
    }
  }

  lemma StoppedMove(s: State, u: State, p: nat, q: Poller)
    requires p < |s.pollers| && u.pollers == s.pollers[p := q]
    requires !u.running && u.accepted == s.accepted && s.log <= u.log
    requires Delivered(u.log) + Waited(q) <= Delivered(s.log) + Waited(s.pollers[p])
    requires q.Holding? ==> s.pollers[p].Holding?
    requires !s.pollers[p].Holding? ==> u.log == s.log
    ensures StoppedTo(s, u)
  {
    hide Delivered, Waits, Waited;
    WaitsUpdate(s.pollers, p, q);
    Exchange(Delivered(s.log), Waits(s.pollers), Waited(s.pollers[p]), Delivered(u.log), Waits(u.pollers), Waited(q));
  }

  lemma StoppedAdvance(s: State, a: Action, p: nat)
    requires !s.running && p < |s.pollers|
    ensures StoppedTo(s, Advance(s, a, p))
  {
    hide IsTop, WaitTime, Delivered, Waits, StoppedTo;
    var u, h := Advance(s, a, p), s.pollers[p];
    if h.Holding? && a.TimeOut? && s.now >= h.until {
      DeliveredSnoc(s.log, Delivery(h.ev, s.now, h.among));
    }
    assert s.pollers[p := h] == s.pollers;
    StoppedMove(s, u, p, u.pollers[p]);
  }

  lemma StoppedStep(s: State, a: Action)
    requires !s.running && a != Resume
    ensures StoppedTo(s, Next(s, a))
  {
    hide Advance, Delivered, Waits, AnyHolding;
    match a
    case Poll(p) => if p < |s.pollers| { StoppedAdvance(s, a, p); }
    case Pop(p, _) => if p < |s.pollers| { StoppedAdvance(s, a, p); }
    case PollStopped(p) => if p < |s.pollers| { StoppedAdvance(s, a, p); }
    case TimeOut(p) => if p < |s.pollers| { StoppedAdvance(s, a, p); }
    case Notified(p) => if p < |s.pollers| { StoppedAdvance(s, a, p); }
    case PutBack(p) => if p < |s.pollers| { StoppedAdvance(s, a, p); }
    case Enqueue(_) => SameHolding(s, a);
    case Stop => SameHolding(s, a);
    case Tick(_) => SameHolding(s, a);
    case Resume =>
  }

  lemma SameHolding(s: State, a: Action)
    requires a.Enqueue? || a.Stop? || a.Resume? || a.Tick?
    ensures Next(s, a).pollers == s.pollers && AnyHolding(Next(s, a)) == AnyHolding(s)
  {
  }

  lemma {:induction false} StoppedRun(s: State, acts: seq<Action>)
    requires !s.running && Resume !in acts
    ensures StoppedTo(s, Exec(s, acts))
    decreases |acts|
  {
    hide Next, Delivered, Waits, AnyHolding;
    if acts == [] {
    } else {
      StoppedStep(s, acts[0]);
      StoppedRun(Next(s, acts[0]), acts[1..]);
    }
  }

  // A poll() still delivers after a stop, if only its wait is left to run out.
  lemma HeldCanStillArrive(s: State, p: nat) returns (acts: seq<Action>)
    requires p < |s.pollers| && s.pollers[p].Holding?
    ensures Resume !in acts
    ensures var h := s.pollers[p];
            Exec(Next(s, Stop), acts).log
            == s.log + [Delivery(h.ev, if s.now < h.until then h.until else s.now, h.among)]
  {
    var h, u := s.pollers[p], Next(s, Stop);
    var rest := if s.now < h.until then h.until - s.now else 0;
    acts := [Tick(rest)] + [TimeOut(p)];
    ExecConcat(u, [Tick(rest)], [TimeOut(p)]);
    ExecOne(u, Tick(rest));
    ExecOne(Next(u, Tick(rest)), TimeOut(p));
  }

  // Until the queue is resumed, a poll() can return an event after stop()
  // exactly when some poll() is in its timed wait as stop() is called; and
  // what is returned are events of those polls, each at most once.
  lemma StopDeliversIff(s: State)
    ensures (exists acts :: Resume !in acts && Exec(Next(s, Stop), acts).log != s.log) <==> AnyHolding(s)
    ensures forall acts :: Resume !in acts ==>
              Delivered(Exec(Next(s, Stop), acts).log) <= Delivered(s.log) + Waits(s.pollers)
  {
    var u := Next(s, Stop);
    assert !u.running && u.log == s.log && u.pollers == s.pollers;
    if AnyHolding(s) {
      var p :| 0 <= p < |s.pollers| && s.pollers[p].Holding?;
      var acts := HeldCanStillArrive(s, p);
    }
    hide Next, Exec, Delivered, Waits;
    forall acts | Resume !in acts
      ensures Delivered(Exec(u, acts).log) <= Delivered(s.log) + Waits(s.pollers)
      ensures !AnyHolding(s) ==> Exec(u, acts).log == s.log {
      StoppedRun(u, acts);
    }
  }

  // Until the queue is resumed, every event it had accepted is in a poller's
  // hand, delivered or dropped, and nothing more is accepted.
  lemma StoppedAccounts(s: State, acts: seq<Action>)
    requires Invariant(s) && Resume !in acts
    ensures var u := Exec(Next(s, Stop), acts);
            && u.accepted == s.accepted && u.queue == multiset{}
            && s.accepted == Hands(u.pollers) + Delivered(u.log) + u.dropped
  {
    NextInvariant(s, Stop);
    Reachable(Next(s, Stop), acts);
    StoppedRun(Next(s, Stop), acts);
    hide Exec, Hands, Delivered, Waits, LogTimely, PollersTimely;
    var u := Exec(Next(s, Stop), acts);
    assert u.queue + Hands(u.pollers) == Hands(u.pollers);
  }

  // ----- One poller is enough ----------------------------------------------

  function Stage(p: Poller): nat {
    match p
    case Holding(_, _, _) => 0
    case Polling => 1
    case Outside => 2
    case Returning(_) => 3
  }

  // What the first poller still has to deal with.
  function Load(s: State): multiset<Event>
    requires s.pollers != []
  {
    s.queue + Held(s.pollers[0])
  }

  function Rank(s: State): nat
    requires s.pollers != []
  {
    4 * |Load(s)| + Stage(s.pollers[0])
  }

  // The next thing the first poller can do, time passing as it must.
  function Task(s: State, top: Event): seq<Action>
    requires s.pollers != []
  {
    match s.pollers[0]
    case Outside => [Poll(0)]
    case Polling => [Pop(0, top)]
    case Holding(_, until, _) => [Tick(if s.now < until then until - s.now else 0), TimeOut(0)]
    case Returning(_) => [PutBack(0)]
  }

  predicate Progress(s: State, u: State) {
    && u.running && u.dropped == s.dropped && |u.pollers| == |s.pollers| && s.pollers != []
    && u.pollers[1..] == s.pollers[1..]
    && Delivered(u.log) + Load(u) == Delivered(s.log) + Load(s)
  }

  lemma DeliveredOne(s: State, u: State, d: Delivery)
    requires s.pollers != [] && u.pollers == s.pollers[0 := Outside] && u.log == s.log + [d]
    requires u.queue + multiset{d.ev} == Load(s) && u.running && u.dropped == s.dropped
    ensures Progress(s, u) && Rank(u) < Rank(s)
  {
    DeliveredSnoc(s.log, d);
    hide Delivered;
    assert Load(u) == u.queue;
    assert |Load(s)| == |u.queue| + 1;
    assert Delivered(s.log) + multiset{d.ev} + u.queue == Delivered(s.log) + (u.queue + multiset{d.ev});
  }

  lemma MovedOne(s: State, u: State, q: Poller)
    requires s.pollers != [] && u.pollers == s.pollers[0 := q] && u.log == s.log
    requires u.queue + Held(q) == Load(s) && Stage(q) < Stage(s.pollers[0]) && u.running && u.dropped == s.dropped
    ensures Progress(s, u) && Rank(u) < Rank(s)
  {
    hide Delivered;
  }

  lemma TaskProgress(s: State, top: Event)
    requires s.running && s.pollers != [] && Load(s) != multiset{}
    requires s.queue != multiset{} ==> IsTop(top, s.queue)
    ensures var u := Exec(s, Task(s, top));
            Progress(s, u) && Rank(u) < Rank(s)
  {
    hide Exec, Rank, Progress, IsTop, WaitTime;
    if s.pollers[0].Polling? {
      assert s.queue == Load(s);
      PopProgress(s, top);
    } else if s.pollers[0].Holding? {
      ArriveProgress(s);
    } else if s.pollers[0].Outside? {
      CallProgress(s);
    } else {
      PutBackProgress(s);
    }
  }

  lemma CallProgress(s: State)
    requires s.running && s.pollers != [] && s.pollers[0].Outside?
    ensures var u := Exec(s, [Poll(0)]);
            Progress(s, u) && Rank(u) < Rank(s)
  {
    ExecOne(s, Poll(0));
    hide Exec, Rank, Progress, IsTop, WaitTime;
    MovedOne(s, Next(s, Poll(0)), Polling);
  }

  lemma PutBackProgress(s: State)
    requires s.running && s.pollers != [] && s.pollers[0].Returning?
    ensures var u := Exec(s, [PutBack(0)]);
            Progress(s, u) && Rank(u) < Rank(s)
  {
    ExecOne(s, PutBack(0));
    hide Exec, Rank, Progress, IsTop, WaitTime;
    var u := Next(s, PutBack(0));
    assert Load(s) == u.queue;
    assert u.queue + Held(Outside) == u.queue;
    MovedOne(s, u, Outside);
  }

  lemma PopProgress(s: State, top: Event)
    requires s.running && s.pollers != [] && s.pollers[0] == Polling && IsTop(top, s.queue)
    ensures var u := Exec(s, [Pop(0, top)]);
            Progress(s, u) && Rank(u) < Rank(s)
  {
    var u := Next(s, Pop(0, top));
    ExecOne(s, Pop(0, top));
    TakeAndHold(s.queue, top);
    hide Rank, Progress, IsTop, WaitTime, Exec;
    assert Load(s) == s.queue;
    if top.due <= s.now {
      DeliveredOne(s, u, Delivery(top, s.now, s.queue));
    } else {
      MovedOne(s, u, u.pollers[0]);
    }
  }

  lemma ArriveProgress(s: State)
    requires s.running && s.pollers != [] && s.pollers[0].Holding?
    ensures var u := Exec(s, Task(s, s.pollers[0].ev));
            Progress(s, u) && Rank(u) < Rank(s)
  {
    var h := s.pollers[0];
    var tick := Tick(if s.now < h.until then h.until - s.now else 0);
    assert Task(s, h.ev) == [tick] + [TimeOut(0)];
    hide Rank, Progress, IsTop, WaitTime, Task, Load;
    var t := Next(s, tick);
    ExecConcat(s, [tick], [TimeOut(0)]);
    ExecOne(s, tick);
    ExecOne(t, TimeOut(0));
    hide Exec;
    HeldLoad(s);
    DeliveredOne(s, Next(t, TimeOut(0)), Delivery(h.ev, t.now, h.among));
  }

  lemma HeldLoad(s: State)
    requires s.pollers != [] && s.pollers[0].Holding?
    ensures Load(s) == s.queue + multiset{s.pollers[0].ev}
  {
  }

  // From every running state one poller by itself can deliver everything
  // queued and its own event, losing nothing: no event is ever stuck.
  lemma {:induction false} OnePollerDrains(s: State) returns (acts: seq<Action>)
    requires s.running && s.pollers != []
    ensures var u := Exec(s, acts);
            && u.running && u.queue == multiset{} && |u.pollers| == |s.pollers|
            && Held(u.pollers[0]) == multiset{} && u.pollers[1..] == s.pollers[1..]
            && Delivered(u.log) == Delivered(s.log) + s.queue + Held(s.pollers[0])
            && u.dropped == s.dropped
    decreases Rank(s)
  {
    hide Exec, Next, Task, IsTop, Delivered;
    if Load(s) == multiset{} {
      acts := [];
      ExecNothing(s);
      assert s.queue <= Load(s) && Held(s.pollers[0]) <= Load(s);
      assert Delivered(s.log) + s.queue + Held(s.pollers[0]) == Delivered(s.log);
    } else {
      var top := Event(0, 0);
      if s.queue != multiset{} {
        TopExists(s.queue);
        top :| IsTop(top, s.queue);
      }
      TaskProgress(s, top);
      var u := Exec(s, Task(s, top));
      var more := OnePollerDrains(u);
      acts := Task(s, top) + more;
      ExecConcat(s, Task(s, top), more);
      assert Delivered(u.log) + u.queue + Held(u.pollers[0]) == Delivered(u.log) + Load(u);
      assert Delivered(s.log) + s.queue + Held(s.pollers[0]) == Delivered(s.log) + Load(s);
    }
  }

  lemma ExecNothing(s: State)
    ensures Exec(s, []) == s
  {
  }

  // ----- The queue object --------------------------------------------------

  // The critical sections of event_queue.
  class Queue {
    var running: bool
    var queue: multiset<Event>

    constructor ()
      ensures running && queue == multiset{}
    {
      running, queue := true, multiset{};
    }

    ghost predicate Matches(s: State)
      reads this
    {
      running == s.running && queue == s.queue
    }

    method Enqueue(ev: Event, ghost s: State)
      requires Matches(s)
      modifies this`queue
      ensures Matches(Next(s, Action.Enqueue(ev)))
      ensures queue == if running then old(queue) + multiset{ev} else old(queue)
    {
      if running {
        queue := queue + multiset{ev};
      }
    }

    // poll(), from the end of its first wait until it returns or waits again.
    method PollFirst(now: int, ghost s: State, ghost p: nat) returns (stopped: bool, ev: Event, wait: int)
      requires Matches(s) && s.now == now && p < |s.pollers| && s.pollers[p] == Polling
      requires queue != multiset{} || !running
      modifies this`queue
      ensures stopped == !running && (stopped ==> queue == old(queue))
      ensures !stopped ==> ev in old(queue) && queue == old(queue) - multiset{ev}
      ensures !stopped ==> forall e :: e in old(queue) ==> ev.due <= e.due
      ensures !stopped ==> wait % 1_000_000 == 0 && (ev.due <= now ==> wait == 0)
      ensures !stopped && ev.due > now ==> wait <= ev.due - now < wait + 1_000_000
      ensures stopped ==> Matches(Next(s, PollStopped(p)))
      ensures !stopped ==> IsTop(ev, s.queue) && Matches(Next(s, Pop(p, ev)))
      ensures !stopped && ev.due <= now ==> wait == 0 && Next(s, Pop(p, ev)).log == s.log + [Delivery(ev, now, s.queue)]
      ensures !stopped && ev.due > now ==> Next(s, Pop(p, ev)).pollers[p] == Holding(ev, now + wait, s.queue)
    {
      if !running {
        return true, Event(0, 0), 0;
      }
      TopExists(queue);
      ev :| IsTop(ev, queue);
      queue := queue - multiset{ev};
      var duration := ev.due - now;
      wait := 0;
      if duration > 0 {
        wait := duration / MILLISECOND * MILLISECOND;
        WholeMilliseconds(duration);
      }
      stopped := false;
    }

    // poll(), after wait_for was notified: the lock is free, then taken again.
    method PollSecond(ev: Event, ghost s: State, ghost p: nat)
      requires Matches(s) && p < |s.pollers| && s.pollers[p] == Returning(ev)
      modifies this`queue
      ensures Matches(Next(s, PutBack(p)))
      ensures queue == if running then old(queue) + multiset{ev} else old(queue)
    {
      if running {
        queue := queue + multiset{ev};
      }
    }

    method Stop(ghost s: State)
      requires Matches(s)
      modifies this
      ensures Matches(Next(s, Action.Stop))
      ensures !running && queue == if old(running) then multiset{} else old(queue)
    {
      if running {
        running := false;
        queue := multiset{};
      }
    }

    method Resume(ghost s: State)
      requires Matches(s)
      modifies this`running
      ensures Matches(Next(s, Action.Resume))
      ensures running
    {
      if !running {
        running := true;
      }
    }
  }
}
