// Runs over many signals and slots, with the objects themselves.
module SigSlotRuns {
  import opened SigSlot

  // One call on the signals and slots with these indices.
  datatype Order =
    | Attach(i: nat, j: nat, f: Func)       // signal.connect(slot, f)
    | DetachFn(i: nat, j: nat, f: Func)     // signal.disconnect(slot, f)
    | DetachSlot(i: nat, j: nat)            // signal.disconnect(slot)
    | DetachSignal(i: nat, j: nat)          // slot.disconnect(signal)
    | SignalDetachesAll(i: nat)
    | SlotDetachesAll(j: nat)

  // What a call means for the pair of signal i and slot j.
  function Seen(o: Order, i: nat, j: nat): seq<Op> {
    match o
    case Attach(i', j', f) => if i == i' && j == j' then [Connect(f)] else []
    case DetachFn(i', j', f) => if i == i' && j == j' then [DisconnectFn(f)] else []
    case DetachSlot(i', j') => if i == i' && j == j' then [DisconnectSlot] else []
    case DetachSignal(i', j') => if i == i' && j == j' then [DisconnectSignal] else []
    case SignalDetachesAll(i') => if i == i' then [DisconnectSlot] else []
    case SlotDetachesAll(j') => if j == j' then [DisconnectSignal] else []
  }

  function Projected(orders: seq<Order>, i: nat, j: nat): seq<Op> {
    if orders == [] then []
    else Projected(orders[..|orders| - 1], i, j) + Seen(orders[|orders| - 1], i, j)
  }

  predicate InRange(o: Order, signals: nat, slots: nat) {
    match o
    case SignalDetachesAll(i) => i < signals
    case SlotDetachesAll(j) => j < slots
    case _ => o.i < signals && o.j < slots
  }

  // Both books of every signal and slot, at one moment.
  datatype Books = Books(conns: seq<map<Slot, seq<Func>>>, counts: seq<map<Signal, nat>>)

  ghost function BooksOf(signals: seq<Signal>, slots: seq<Slot>): (b: Books)
    reads signals, slots
    ensures |b.conns| == |signals| && forall i :: 0 <= i < |signals| ==> b.conns[i] == signals[i].slotConnections
    ensures |b.counts| == |slots| && forall j :: 0 <= j < |slots| ==> b.counts[j] == slots[j].counts
  {
    Books(seq(|signals|, i requires 0 <= i < |signals| reads signals => signals[i].slotConnections),
          seq(|slots|, j requires 0 <= j < |slots| reads slots => slots[j].counts))
  }

  predicate Distinct<T(==)>(s: seq<T>) {
    forall i, k :: 0 <= i < k < |s| ==> s[i] != s[k]
  }

  predicate ConnsOk(m: map<Slot, seq<Func>>, slots: seq<Slot>) {
    forall t :: t in m ==> t in slots && m[t] != []
  }

  predicate CountsOk(m: map<Signal, nat>, signals: seq<Signal>) {
    forall s :: s in m ==> s in signals && m[s] > 0
  }

  // Signals and slots that know of each other only, with no empty entries.
  predicate Closed(signals: seq<Signal>, slots: seq<Slot>, b: Books) {
    && Distinct(signals) && Distinct(slots) && |b.conns| == |signals| && |b.counts| == |slots|
    && (forall i :: 0 <= i < |signals| ==> ConnsOk(b.conns[i], slots))
    && (forall j :: 0 <= j < |slots| ==> CountsOk(b.counts[j], signals))
  }

  // The pair of signal i and slot j.
  function LinkAt(signals: seq<Signal>, slots: seq<Slot>, b: Books, i: nat, j: nat): Link
    requires i < |signals| == |b.conns| && j < |slots| == |b.counts|
  {
    Link(if slots[j] in b.conns[i] then b.conns[i][slots[j]] else [],
         if signals[i] in b.counts[j] then b.counts[j][signals[i]] else 0)
  }

  function Then(l: Link, ops: seq<Op>): Link {
    if ops == [] then l else Next(l, ops[0])
  }

  // Every pair has taken what the call means for it.
  predicate Performed(signals: seq<Signal>, slots: seq<Slot>, b: Books, o: Order, c: Books) {
    && Closed(signals, slots, b) && Closed(signals, slots, c)
    && forall i, j :: 0 <= i < |signals| && 0 <= j < |slots| ==>
         LinkAt(signals, slots, c, i, j) == Then(LinkAt(signals, slots, b, i, j), Seen(o, i, j))
  }

  lemma SameElsewhere<K, V>(m: map<K, V>, was: map<K, V>, k: K)
    requires m - {k} == was - {k}
    ensures forall x :: x != k ==> (x in m <==> x in was) && (x in m ==> m[x] == was[x])
  {
    forall x | x != k ensures (x in m <==> x in was) && (x in m ==> m[x] == was[x]) {
      assert x in m <==> x in m - {k};
      assert x in was <==> x in was - {k};
    }
  }

  // A call on one pair that leaves all other entries alone.
  lemma OnePair(signals: seq<Signal>, slots: seq<Slot>, b: Books, c: Books, i: nat, j: nat, o: Order, op: Op)
    requires Closed(signals, slots, b) && i < |signals| == |c.conns| && j < |slots| == |c.counts|
    requires c.conns == b.conns[i := c.conns[i]] && c.counts == b.counts[j := c.counts[j]]
    requires forall t :: t in c.conns[i] ==> c.conns[i][t] != []
    requires forall s :: s in c.counts[j] ==> c.counts[j][s] > 0
    requires c.conns[i] - {slots[j]} == b.conns[i] - {slots[j]}
    requires c.counts[j] - {signals[i]} == b.counts[j] - {signals[i]}
    requires LinkAt(signals, slots, c, i, j) == Next(LinkAt(signals, slots, b, i, j), op)
    requires forall k, l :: Seen(o, k, l) == if k == i && l == j then [op] else []
    ensures Performed(signals, slots, b, o, c)
  {
    hide Next, Seen;
    SameElsewhere(c.conns[i], b.conns[i], slots[j]);
    SameElsewhere(c.counts[j], b.counts[j], signals[i]);
    assert ConnsOk(b.conns[i], slots) && slots[j] in slots;
    assert ConnsOk(c.conns[i], slots);
    assert CountsOk(b.counts[j], signals) && signals[i] in signals;
    assert CountsOk(c.counts[j], signals);
    forall k, l | 0 <= k < |signals| && 0 <= l < |slots|
      ensures LinkAt(signals, slots, c, k, l) == Then(LinkAt(signals, slots, b, k, l), Seen(o, k, l)) {
      assert k != i ==> c.conns[k] == b.conns[k] && signals[k] != signals[i];
      assert l != j ==> c.counts[l] == b.counts[l] && slots[l] != slots[j];
    }
    hide LinkAt, Then, ConnsOk, CountsOk;
    assert Closed(signals, slots, c);
  }

  lemma AllValid(signals: seq<Signal>, slots: seq<Slot>)
    requires Closed(signals, slots, BooksOf(signals, slots))
    ensures forall i :: 0 <= i < |signals| ==>
              signals[i].Valid() && signals[i].slotConnections.Keys <= (set t | t in slots)
    ensures forall j :: 0 <= j < |slots| ==> slots[j].Valid() && slots[j].counts.Keys <= (set s | s in signals)
  {
    var b := BooksOf(signals, slots);
    forall i | 0 <= i < |signals|
      ensures signals[i].Valid() && signals[i].slotConnections.Keys <= (set t | t in slots) {
      assert b.conns[i] == signals[i].slotConnections;
      assert ConnsOk(b.conns[i], slots);
    }
    forall j | 0 <= j < |slots| ensures slots[j].Valid() && slots[j].counts.Keys <= (set s | s in signals) {
      assert b.counts[j] == slots[j].counts;
      assert CountsOk(b.counts[j], signals);
    }
  }

  lemma RemovedTwiceIsOnce<K, V>(m: map<K, V>, k: K)
    ensures (m - {k}) - {k} == m - {k}
  {
  }

  method PerformAttach(signals: seq<Signal>, slots: seq<Slot>, i: nat, j: nat, f: Func)
    requires Closed(signals, slots, BooksOf(signals, slots)) && i < |signals| && j < |slots|
    modifies signals[i], slots[j]
    ensures Performed(signals, slots, old(BooksOf(signals, slots)), Attach(i, j, f), BooksOf(signals, slots))
  {
    hide Next, Performed;
    AllValid(signals, slots);
    ghost var b := BooksOf(signals, slots);
    signals[i].Connect(slots[j], f);
    OnePair(signals, slots, b, BooksOf(signals, slots), i, j, Attach(i, j, f), Connect(f));
  }

  method PerformFn(signals: seq<Signal>, slots: seq<Slot>, i: nat, j: nat, f: Func)
    requires Closed(signals, slots, BooksOf(signals, slots)) && i < |signals| && j < |slots|
    modifies signals[i], slots[j]
    ensures Performed(signals, slots, old(BooksOf(signals, slots)), DetachFn(i, j, f), BooksOf(signals, slots))
  {
    hide Next, Performed;
    AllValid(signals, slots);
    ghost var b := BooksOf(signals, slots);
    signals[i].DisconnectFn(slots[j], f);
    OnePair(signals, slots, b, BooksOf(signals, slots), i, j, DetachFn(i, j, f), DisconnectFn(f));
  }

  method PerformSlot(signals: seq<Signal>, slots: seq<Slot>, i: nat, j: nat)
    requires Closed(signals, slots, BooksOf(signals, slots)) && i < |signals| && j < |slots|
    modifies signals[i], slots[j]
    ensures Performed(signals, slots, old(BooksOf(signals, slots)), DetachSlot(i, j), BooksOf(signals, slots))
  {
    hide Next, Performed;
    AllValid(signals, slots);
    ghost var b := BooksOf(signals, slots);
    signals[i].DisconnectSlot(slots[j]);
    RemovedTwiceIsOnce(b.conns[i], slots[j]);
    OnePair(signals, slots, b, BooksOf(signals, slots), i, j, DetachSlot(i, j), DisconnectSlot);
  }

  method PerformSignal(signals: seq<Signal>, slots: seq<Slot>, i: nat, j: nat)
    requires Closed(signals, slots, BooksOf(signals, slots)) && i < |signals| && j < |slots|
    modifies signals[i], slots[j]
    ensures Performed(signals, slots, old(BooksOf(signals, slots)), DetachSignal(i, j), BooksOf(signals, slots))
  {
    hide Next, Performed;
    AllValid(signals, slots);
    ghost var b := BooksOf(signals, slots);
    slots[j].Disconnect(signals[i]);
    RemovedTwiceIsOnce(b.counts[j], signals[i]);
    OnePair(signals, slots, b, BooksOf(signals, slots), i, j, DetachSignal(i, j), DisconnectSignal);
  }

  method PerformSignalAll(signals: seq<Signal>, slots: seq<Slot>, i: nat)
    requires Closed(signals, slots, BooksOf(signals, slots)) && i < |signals|
    modifies signals[i], slots
    ensures Performed(signals, slots, old(BooksOf(signals, slots)), SignalDetachesAll(i), BooksOf(signals, slots))
  {
    hide Performed;
    AllValid(signals, slots);
    ghost var b := BooksOf(signals, slots);
    var s := signals[i];
    s.DisconnectAll();
    ghost var c := BooksOf(signals, slots);
    forall l | 0 <= l < |slots|
      ensures if slots[l] in b.conns[i] then
                && LinkAt(signals, slots, c, i, l) == Next(LinkAt(signals, slots, b, i, l), DisconnectSlot)
                && c.counts[l] - {s} == b.counts[l] - {s} && (forall x :: x in c.counts[l] ==> c.counts[l][x] > 0)
              else c.counts[l] == b.counts[l] {
    }
    AllSlots(signals, slots, b, c, i);
  }

  lemma AllSlots(signals: seq<Signal>, slots: seq<Slot>, b: Books, c: Books, i: nat)
    requires Closed(signals, slots, b) && i < |signals| == |c.conns| && |slots| == |c.counts|
    requires c.conns == b.conns[i := map[]]
    requires forall l :: 0 <= l < |slots| ==>
               if slots[l] in b.conns[i] then
                 && LinkAt(signals, slots, c, i, l) == Next(LinkAt(signals, slots, b, i, l), DisconnectSlot)
                 && c.counts[l] - {signals[i]} == b.counts[l] - {signals[i]}
                 && (forall x :: x in c.counts[l] ==> c.counts[l][x] > 0)
               else c.counts[l] == b.counts[l]
    ensures Performed(signals, slots, b, SignalDetachesAll(i), c)
  {
    forall l | 0 <= l < |slots|
      ensures CountsOk(c.counts[l], signals)
      ensures forall k :: 0 <= k < |signals| ==>
                LinkAt(signals, slots, c, k, l)
                == Then(LinkAt(signals, slots, b, k, l), Seen(SignalDetachesAll(i), k, l)) {
      if slots[l] in b.conns[i] {
        SameElsewhere(c.counts[l], b.counts[l], signals[i]);
        assert signals[i] in signals;
      }
      assert CountsOk(b.counts[l], signals) && ConnsOk(b.conns[i], slots);
    }
  }

  method PerformSlotAll(signals: seq<Signal>, slots: seq<Slot>, j: nat)
    requires Closed(signals, slots, BooksOf(signals, slots)) && j < |slots|
    modifies slots[j], signals
    ensures Performed(signals, slots, old(BooksOf(signals, slots)), SlotDetachesAll(j), BooksOf(signals, slots))
  {
    hide Performed;
    AllValid(signals, slots);
    ghost var b := BooksOf(signals, slots);
    var t := slots[j];
    t.DisconnectAll();
    ghost var c := BooksOf(signals, slots);
    forall k | 0 <= k < |signals|
      ensures c.conns[k] == if signals[k] in b.counts[j] then b.conns[k] - {t} else b.conns[k] {
    }
    AllSignals(signals, slots, b, c, j);
  }

  lemma AllSignals(signals: seq<Signal>, slots: seq<Slot>, b: Books, c: Books, j: nat)
    requires Closed(signals, slots, b) && j < |slots| == |c.counts| && |signals| == |c.conns|
    requires c.counts == b.counts[j := map[]]
    requires forall k :: 0 <= k < |signals| ==>
               c.conns[k] == if signals[k] in b.counts[j] then b.conns[k] - {slots[j]} else b.conns[k]
    ensures Performed(signals, slots, b, SlotDetachesAll(j), c)
  {
    forall k | 0 <= k < |signals|
      ensures ConnsOk(c.conns[k], slots)
      ensures forall l :: 0 <= l < |slots| ==>
                LinkAt(signals, slots, c, k, l)
                == Then(LinkAt(signals, slots, b, k, l), Seen(SlotDetachesAll(j), k, l)) {
      assert CountsOk(b.counts[j], signals) && ConnsOk(b.conns[k], slots);
    }
  }

  // Each call acts on every pair as its operation says, and on no other.
  method Perform(signals: seq<Signal>, slots: seq<Slot>, o: Order)
    requires Closed(signals, slots, BooksOf(signals, slots)) && InRange(o, |signals|, |slots|)
    modifies signals, slots
    ensures Performed(signals, slots, old(BooksOf(signals, slots)), o, BooksOf(signals, slots))
  {
    hide Performed, Closed;
    match o
    case Attach(i, j, f) => PerformAttach(signals, slots, i, j, f);
    case DetachFn(i, j, f) => PerformFn(signals, slots, i, j, f);
    case DetachSlot(i, j) => PerformSlot(signals, slots, i, j);
    case DetachSignal(i, j) => PerformSignal(signals, slots, i, j);
    case SignalDetachesAll(i) => PerformSignalAll(signals, slots, i);
    case SlotDetachesAll(j) => PerformSlotAll(signals, slots, j);
  }

  // Every pair has come as far as the operations it has seen.
  predicate FollowsAll(signals: seq<Signal>, slots: seq<Slot>, b: Books, orders: seq<Order>) {
    && Closed(signals, slots, b)
    && forall i, j :: 0 <= i < |signals| && 0 <= j < |slots| ==>
         LinkAt(signals, slots, b, i, j) == Run(Projected(orders, i, j))
  }

  lemma FollowsNext(signals: seq<Signal>, slots: seq<Slot>, b: Books, orders: seq<Order>, n: nat, c: Books)
    requires n < |orders| && FollowsAll(signals, slots, b, orders[..n]) && Performed(signals, slots, b, orders[n], c)
    ensures FollowsAll(signals, slots, c, orders[..n + 1])
  {
    assert |c.conns| == |signals| && |c.counts| == |slots|;
    hide Closed, LinkAt, Next, Seen;
    forall i, j | 0 <= i < |signals| && 0 <= j < |slots|
      ensures LinkAt(signals, slots, c, i, j) == Run(Projected(orders[..n + 1], i, j)) {
      ProjectedRun(orders, n, i, j);
    }
  }

  lemma ProjectedRun(orders: seq<Order>, n: nat, i: nat, j: nat)
    requires n < |orders|
    ensures Run(Projected(orders[..n + 1], i, j)) == Then(Run(Projected(orders[..n], i, j)), Seen(orders[n], i, j))
  {
    hide Next;
    assert orders[..n + 1][..n] == orders[..n];
    var ops, seen := Projected(orders[..n], i, j), Seen(orders[n], i, j);
    if seen == [] {
      assert ops + seen == ops;
    } else {
      assert |seen| == 1 && (ops + seen)[..|ops|] == ops;
    }
  }

  // Any run of calls on any number of signals and slots, starting with nothing
  // connected: each pair's two books are those of its own operations, and they
  // agree exactly when none of them has removed a function twice.
  method Execute(signals: seq<Signal>, slots: seq<Slot>, orders: seq<Order>)
    requires Distinct(signals) && Distinct(slots)
    requires forall s :: s in signals ==> s.slotConnections == map[]
    requires forall t :: t in slots ==> t.counts == map[]
    requires forall o :: o in orders ==> InRange(o, |signals|, |slots|)
    modifies signals, slots
    ensures FollowsAll(signals, slots, BooksOf(signals, slots), orders)
    ensures forall i, j :: 0 <= i < |signals| && 0 <= j < |slots| ==>
              var l := LinkAt(signals, slots, BooksOf(signals, slots), i, j);
              l.count >= |l.conns| && (l.count == |l.conns| <==> !RemovedTwice(Projected(orders, i, j)))
  {
    NothingYet(signals, slots, BooksOf(signals, slots));
    hide FollowsAll, Performed, Closed;
    for n := 0 to |orders|
      invariant FollowsAll(signals, slots, BooksOf(signals, slots), orders[..n])
    {
      ghost var b := BooksOf(signals, slots);
      ClosedWhileFollowing(signals, slots, b, orders[..n]);
      Perform(signals, slots, orders[n]);
      FollowsNext(signals, slots, b, orders, n, BooksOf(signals, slots));
    }
    assert orders[..|orders|] == orders;
    AllAgree(signals, slots, BooksOf(signals, slots), orders);
  }

  lemma NothingYet(signals: seq<Signal>, slots: seq<Slot>, b: Books)
    requires Distinct(signals) && Distinct(slots) && |b.conns| == |signals| && |b.counts| == |slots|
    requires forall i :: 0 <= i < |signals| ==> b.conns[i] == map[]
    requires forall j :: 0 <= j < |slots| ==> b.counts[j] == map[]
    ensures FollowsAll(signals, slots, b, [])
  {
  }

  lemma ClosedWhileFollowing(signals: seq<Signal>, slots: seq<Slot>, b: Books, orders: seq<Order>)
    requires FollowsAll(signals, slots, b, orders)
    ensures Closed(signals, slots, b)
  {
  }

  lemma AllAgree(signals: seq<Signal>, slots: seq<Slot>, b: Books, orders: seq<Order>)
    requires FollowsAll(signals, slots, b, orders) && |b.conns| == |signals| && |b.counts| == |slots|
    ensures forall i, j :: 0 <= i < |signals| && 0 <= j < |slots| ==>
              var l := LinkAt(signals, slots, b, i, j);
              l.count >= |l.conns| && (l.count == |l.conns| <==> !RemovedTwice(Projected(orders, i, j)))
  {
    hide LinkAt, Run, RemovedTwice, Projected;
    forall i, j | 0 <= i < |signals| && 0 <= j < |slots|
      ensures var l := LinkAt(signals, slots, b, i, j);
              l.count >= |l.conns| && (l.count == |l.conns| <==> !RemovedTwice(Projected(orders, i, j))) {
      AgreementIff(Projected(orders, i, j));
    }
  }
}
