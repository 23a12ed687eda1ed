// Signals and slots: two books that count the same connections.
//
// A signal keeps the connections of each slot; a slot keeps a number per
// signal.  Every operation treats each (signal, slot) pair by itself: the runs
// of one pair are here, those of many signals and slots in SigSlotRuns.
module SigSlot {
  import opened Basics

  // A member function of a slot's class.
  type Func = nat

  // The signal's connections for the slot, and the slot's count for the signal.
  datatype Link = Link(conns: seq<Func>, count: nat)

  datatype Op =
    | Connect(f: Func)
    | DisconnectFn(f: Func)
    | DisconnectSlot    // signal.disconnect(slot) or signal.disconnect_all()
    | DisconnectSignal  // slot.disconnect(signal) or slot.disconnect_all()

  const UNLINKED := Link([], 0)

  // What remove_if leaves.
  function Without(s: seq<Func>, f: Func): (r: seq<Func>)
    ensures |r| <= |s|
    ensures f !in s ==> r == s
    ensures f in s ==> |r| < |s|
    ensures f !in r
  {
    if s == [] then []
    else if s[0] == f then Without(s[1..], f)
    else [s[0]] + Without(s[1..], f)
  }

  lemma WithoutFirst(s: seq<Func>, f: Func)
    ensures s == [] ==> Without(s, f) == []
    ensures s != [] ==> Without(s, f) == (if s[0] == f then [] else [s[0]]) + Without(s[1..], f)
  {
  }

  lemma {:induction false} WithoutConcat(a: seq<Func>, b: seq<Func>, f: Func)
    ensures Without(a + b, f) == Without(a, f) + Without(b, f)
  {
    hide Without;
    WithoutFirst(a, f);
    if a == [] {
      assert a + b == b;
    } else {
      WithoutFirst(a + b, f);
      WithoutConcat(a[1..], b, f);
      assert (a + b)[1..] == a[1..] + b && (a + b)[0] == a[0];
      var first := if a[0] == f then [] else [a[0]];
      assert first + (Without(a[1..], f) + Without(b, f)) == (first + Without(a[1..], f)) + Without(b, f);
    }
  }

  lemma WithoutOne(g: Func, f: Func)
    ensures Without([g], f) == if g == f then [] else [g]
  {
    assert [g][1..] == [];
  }

  lemma WithoutSnoc(s: seq<Func>, g: Func, f: Func)
    ensures Without(s + [g], f) == if g == f then Without(s, f) else Without(s, f) + [g]
  {
    WithoutConcat(s, [g], f);
    WithoutOne(g, f);
  }

  predicate AreOthers(at: seq<nat>, s: seq<Func>, f: Func) {
    forall i :: 0 <= i < |s| ==> (i in at <==> s[i] != f)
  }

  lemma OthersNext(at: seq<nat>, s: seq<Func>, g: Func, f: Func)
    requires AreOthers(at, s, f) && |s| !in at
    ensures AreOthers(if g == f then at else at + [|s|], s + [g], f)
  {
    var more := if g == f then at else at + [|s|];
    forall i | 0 <= i < |s + [g]| ensures i in more <==> (s + [g])[i] != f {
      assert i < |s| ==> (s + [g])[i] == s[i];
    }
  }

  lemma OneMoreOther(s: seq<Func>, at: seq<nat>, g: Func, f: Func) returns (more: seq<nat>)
    requires PickedFrom(Without(s, f), s, at) && AreOthers(at, s, f)
    ensures PickedFrom(Without(s + [g], f), s + [g], more) && AreOthers(more, s + [g], f)
  {
    hide Without, PickedFrom, AreOthers;
    WithoutSnoc(s, g, f);
    PickedNext(Without(s, f), s, at, g);
    OthersNext(at, s, g, f);
    more := if g == f then at else at + [|s|];
  }

  lemma NoOthers(s: seq<Func>, f: Func)
    requires s == []
    ensures PickedFrom(Without(s, f), s, []) && AreOthers([], s, f)
  {
  }

  // What stays is exactly the connections with other functions, each as often
  // as before and in the same order.
  lemma {:induction false} WithoutExactly(s: seq<Func>, f: Func) returns (at: seq<nat>)
    ensures PickedFrom(Without(s, f), s, at) && AreOthers(at, s, f)
  {
    hide Without, PickedFrom, AreOthers;
    if s == [] {
      NoOthers(s, f);
      at := [];
    } else {
      var init, last := s[..|s| - 1], s[|s| - 1];
      var some := WithoutExactly(init, f);
      at := OneMoreOther(init, some, last, f);
      assert s == init + [last];
    }
  }

  ghost predicate Remain(now: seq<Func>, was: seq<Func>, f: Func) {
    exists at :: PickedFrom(now, was, at) && AreOthers(at, was, f)
  }

  lemma WithoutRemain(s: seq<Func>, f: Func)
    ensures Remain(Without(s, f), s, f)
  {
    var at := WithoutExactly(s, f);
  }

  lemma {:induction false} WithoutCount(s: seq<Func>, f: Func)
    ensures |Without(s, f)| == |s| - multiset(s)[f]
  {
    if s == [] {
    } else {
      WithoutCount(s[..|s| - 1], f);
      WithoutSnoc(s[..|s| - 1], s[|s| - 1], f);
      hide Without;
      assert s == s[..|s| - 1] + [s[|s| - 1]];
    }
  }

  // unregister_connection with a number
  function Unregister(count: nat, n: nat): nat {
    if count > n then count - n else 0
  }

  function Next(l: Link, op: Op): Link {
    match op
    case Connect(f) => Link(l.conns + [f], l.count + 1)
    case DisconnectFn(f) => if f in l.conns then Link(Without(l.conns, f), Unregister(l.count, 1)) else l
    case DisconnectSlot => if l.conns == [] then l else Link([], Unregister(l.count, |l.conns|))
    case DisconnectSignal => if l.count == 0 then l else UNLINKED
  }

  function Run(ops: seq<Op>): Link {
    if ops == [] then UNLINKED else Next(Run(ops[..|ops| - 1]), ops[|ops| - 1])
  }

  // ----- The reference: a plain list, and a debt ---------------------------

  function Listed(ops: seq<Op>): seq<Func> {
    if ops == [] then []
    else
      var was := Listed(ops[..|ops| - 1]);
      match ops[|ops| - 1]
      case Connect(f) => was + [f]
      case DisconnectFn(f) => Without(was, f)
      case DisconnectSlot => []
      case DisconnectSignal => []
  }

  // How many connections were removed by disconnect(slot, f) beyond one a
  // call, since the slot last disconnected itself.
  function Debt(ops: seq<Op>): nat {
    if ops == [] then 0
    else
      var p := ops[..|ops| - 1];
      match ops[|ops| - 1]
      case Connect(_) => Debt(p)
      case DisconnectFn(f) => if f in Listed(p) then Debt(p) + multiset(Listed(p))[f] - 1 else Debt(p)
      case DisconnectSlot => Debt(p)
      case DisconnectSignal => 0
  }

  // The signal's book is the plain list; the slot's count exceeds its length
  // by exactly the debt.
  lemma {:induction false} CountLaw(ops: seq<Op>)
    ensures Run(ops).conns == Listed(ops)
    ensures Run(ops).count == |Listed(ops)| + Debt(ops)
  {
    if ops == [] {
    } else {
      CountLaw(ops[..|ops| - 1]);
      if ops[|ops| - 1].DisconnectFn? {
        WithoutCount(Listed(ops[..|ops| - 1]), ops[|ops| - 1].f);
      }
    }
  }

  // ----- Which connections are held ----------------------------------------

  // The later operation removes a connection of f.
  predicate Removes(op: Op, f: Func) {
    op.DisconnectSlot? || op.DisconnectSignal? || op == DisconnectFn(f)
  }

  predicate Lasts(ops: seq<Op>, i: nat)
    requires i < |ops|
  {
    ops[i].Connect? && forall j :: i < j < |ops| ==> !Removes(ops[j], ops[i].f)
  }

  // at lists the connects of ops that make the connections conns.
  predicate MadeBy(conns: seq<Func>, ops: seq<Op>, at: seq<nat>) {
    && |at| == |conns| && Ascending(at, |ops|)
    && (forall k :: 0 <= k < |at| ==> ops[at[k]] == Connect(conns[k]))
    && (forall i :: 0 <= i < |ops| ==> (i in at <==> Lasts(ops, i)))
  }

  // After any run the signal holds exactly the connections made and not removed
  // since, in the order they were made.
  lemma {:induction false} HeldExactly(ops: seq<Op>) returns (at: seq<nat>)
    ensures MadeBy(Run(ops).conns, ops, at)
  {
    if ops == [] {
      at := [];
    } else {
      var p, op := ops[..|ops| - 1], ops[|ops| - 1];
      var was := HeldExactly(p);
      CountLaw(p);
      var l := Run(p);
      assert ops == p + [op] && Run(ops) == Next(l, op);
      hide Run, MadeBy, Listed, Debt;
      NextConns(l, op);
      hide Next, Without;
      match op
      case Connect(f) => at := MadeByConnect(l.conns, p, was, f);
      case DisconnectFn(f) => at := MadeByDisconnect(l.conns, p, was, f);
      case DisconnectSlot => at := MadeByNone(l.conns, p, was, op);
      case DisconnectSignal => at := MadeByNone(l.conns, p, was, op);
    }
  }

  lemma NextConns(l: Link, op: Op)
    requires l.count >= |l.conns|
    ensures Next(l, op).conns == match op
                                 case Connect(f) => l.conns + [f]
                                 case DisconnectFn(f) => Without(l.conns, f)
                                 case DisconnectSlot => []
                                 case DisconnectSignal => []
  {
  }

  lemma LastsNext(p: seq<Op>, op: Op, i: nat)
    requires i < |p|
    ensures Lasts(p + [op], i) <==> Lasts(p, i) && !Removes(op, p[i].f)
  {
    var ops := p + [op];
    assert ops[|p|] == op && forall j :: 0 <= j < |p| ==> ops[j] == p[j];
  }

  lemma MadeByConnect(conns: seq<Func>, p: seq<Op>, was: seq<nat>, f: Func) returns (at: seq<nat>)
    requires MadeBy(conns, p, was)
    ensures MadeBy(conns + [f], p + [Connect(f)], at)
  {
    var ops := p + [Connect(f)];
    at := was + [|p|];
    assert forall i :: i in at <==> i in was || i == |p|;
    forall i | 0 <= i < |ops| ensures i in at <==> Lasts(ops, i) {
      if i < |p| {
        LastsNext(p, Connect(f), i);
      }
    }
  }

  lemma MadeByNone(conns: seq<Func>, p: seq<Op>, was: seq<nat>, op: Op) returns (at: seq<nat>)
    requires MadeBy(conns, p, was) && (op.DisconnectSlot? || op.DisconnectSignal?)
    ensures MadeBy([], p + [op], at)
  {
    at := [];
    forall i | 0 <= i < |p + [op]| ensures !Lasts(p + [op], i) {
      if i < |p| {
        LastsNext(p, op, i);
      }
    }
  }

  // Some positions among those in was.
  function Among(was: seq<nat>, some: seq<nat>): (at: seq<nat>)
    requires Ascending(some, |was|)
    ensures |at| == |some| && forall k :: 0 <= k < |at| ==> some[k] < |was| && at[k] == was[some[k]]
  {
    seq(|some|, k requires 0 <= k < |some| => was[some[k]])
  }

  lemma AmongAscends(was: seq<nat>, some: seq<nat>, n: nat)
    requires Ascending(was, n) && Ascending(some, |was|)
    ensures Ascending(Among(was, some), n + 1)
  {
    hide Among;
  }

  lemma MadeByDisconnect(conns: seq<Func>, p: seq<Op>, was: seq<nat>, f: Func) returns (at: seq<nat>)
    requires MadeBy(conns, p, was)
    ensures MadeBy(Without(conns, f), p + [DisconnectFn(f)], at)
  {
    var some := WithoutExactly(conns, f);
    hide Without;
    at := Among(was, some);
    AmongAscends(was, some, |p|);
    hide Ascending, Among;
    var ops, left := p + [DisconnectFn(f)], Without(conns, f);
    forall k | 0 <= k < |at| ensures ops[at[k]] == Connect(left[k]) {
      assert left[k] == conns[some[k]] && p[was[some[k]]] == Connect(conns[some[k]]);
    }
    forall i | 0 <= i < |ops| ensures i in at <==> Lasts(ops, i) {
      if i < |p| {
        LastsNext(p, DisconnectFn(f), i);
        StillListed(conns, p, was, some, at, f, i);
      } else {
        NoneLater(was, some, at, |p|);
      }
    }
    hide AreOthers, Lasts;
    assert |at| == |left| && Ascending(at, |ops|);
  }

  lemma NoneLater(was: seq<nat>, some: seq<nat>, at: seq<nat>, n: nat)
    requires Ascending(was, n) && Ascending(some, |was|) && at == Among(was, some)
    ensures n !in at
  {
  }

  lemma StillListed(conns: seq<Func>, p: seq<Op>, was: seq<nat>, some: seq<nat>, at: seq<nat>, f: Func, i: nat)
    requires MadeBy(conns, p, was) && AreOthers(some, conns, f) && i < |p|
    requires |at| == |some| && forall k :: 0 <= k < |some| ==> some[k] < |was| && at[k] == was[some[k]]
    ensures i in at <==> Lasts(p, i) && p[i].f != f
  {
    if i in at {
      var k :| 0 <= k < |at| && at[k] == i;
      assert some[k] in some && i in was;
    }
    if Lasts(p, i) && p[i].f != f {
      var j :| 0 <= j < |was| && was[j] == i;
      assert conns[j] != f && j in some;
      var k :| 0 <= k < |some| && some[k] == j;
      assert at[k] == i;
    }
  }

  // Some disconnect(slot, f) since the slot last disconnected itself found
  // the same member function twice.
  predicate RemovedTwice(ops: seq<Op>) {
    ops != [] &&
    var p, op := ops[..|ops| - 1], ops[|ops| - 1];
    op != DisconnectSignal && (RemovedTwice(p) || (op.DisconnectFn? && multiset(Listed(p))[op.f] >= 2))
  }

  // The two books agree exactly when that has not happened.
  lemma {:induction false} AgreementIff(ops: seq<Op>)
    ensures Run(ops).count >= |Run(ops).conns|
    ensures Run(ops).count == |Run(ops).conns| <==> !RemovedTwice(ops)
  {
    CountLaw(ops);
    DebtIff(ops);
  }

  lemma {:induction false} DebtIff(ops: seq<Op>)
    ensures Debt(ops) == 0 <==> !RemovedTwice(ops)
  {
    if ops == [] {
    } else {
      DebtIff(ops[..|ops| - 1]);
    }
  }

  predicate NoRepeats(s: seq<Func>) {
    forall i, j :: 0 <= i < j < |s| ==> s[i] != s[j]
  }

  lemma {:induction false} WithoutOnce(s: seq<Func>, f: Func)
    requires NoRepeats(s)
    ensures |Without(s, f)| >= |s| - 1
  {
    if s == [] {
    } else if s[0] == f {
      assert f !in s[1..];
    } else {
      WithoutOnce(s[1..], f);
    }
  }

  // A run that never holds one member function twice keeps the books equal.
  lemma {:induction false} NoRepeatsAgree(ops: seq<Op>)
    requires forall k :: 0 <= k <= |ops| ==> NoRepeats(Listed(ops[..k]))
    ensures Run(ops).count == |Run(ops).conns|
  {
    NeverTwice(ops);
    AgreementIff(ops);
  }

  lemma {:induction false} NeverTwice(ops: seq<Op>)
    requires forall k :: 0 <= k <= |ops| ==> NoRepeats(Listed(ops[..k]))
    ensures !RemovedTwice(ops)
  {
    if ops == [] {
    } else {
      var p, op := ops[..|ops| - 1], ops[|ops| - 1];
      forall k | 0 <= k <= |p| ensures NoRepeats(Listed(p[..k])) {
        assert p[..k] == ops[..k];
      }
      NeverTwice(p);
      assert p[..|p|] == p;
      if op.DisconnectFn? {
        WithoutOnce(Listed(p), op.f);
        WithoutCount(Listed(p), op.f);
      }
    }
  }

  lemma {:induction false} ListedBound(ops: seq<Op>)
    ensures |Listed(ops)| <= |ops|
  {
    if ops == [] {
    } else {
      ListedBound(ops[..|ops| - 1]);
    }
  }

  // Less than three operations never make the books differ.
  lemma {:induction false} ShortRunsAgree(ops: seq<Op>)
    requires |ops| < 3
    ensures !RemovedTwice(ops) && Run(ops).count == |Run(ops).conns|
  {
    if ops == [] {
    } else {
      var p := ops[..|ops| - 1];
      ShortRunsAgree(p);
      ListedBound(p);
      assert |Listed(p)| == 2 ==> |p| == 2;
    }
    AgreementIff(ops);
  }

  // Connected twice and disconnected once, a slot still counts one connection
  // to a signal that holds none, and only its own disconnect can clear it.
  lemma DoubleConnect(f: Func)
    ensures Run([Connect(f), Connect(f), DisconnectFn(f)]) == Link([], 1)
    ensures Run([Connect(f), Connect(f), DisconnectFn(f), DisconnectSlot]) == Link([], 1)
    ensures Run([Connect(f), Connect(f), DisconnectFn(f), DisconnectSignal]) == UNLINKED
  {
    var a := [Connect(f), Connect(f), DisconnectFn(f)];
    assert a[..2] == [Connect(f), Connect(f)];
    assert a[..2][..1] == [Connect(f)];
    assert Run([Connect(f)]) == Link([f], 1);
    assert Run(a[..2]) == Link([f, f], 2);
    assert Without([f, f], f) == [];
    assert Run(a) == Link([], 1);
    assert (a + [DisconnectSlot])[..3] == a && (a + [DisconnectSignal])[..3] == a;
    assert a + [DisconnectSlot] == [Connect(f), Connect(f), DisconnectFn(f), DisconnectSlot];
    assert a + [DisconnectSignal] == [Connect(f), Connect(f), DisconnectFn(f), DisconnectSignal];
  }

  // ----- The objects -------------------------------------------------------

  ghost function LinkOf(signal: Signal, slot: Slot): Link
    reads signal, slot
  {
    Link(if slot in signal.slotConnections then signal.slotConnections[slot] else [],
         if signal in slot.counts then slot.counts[signal] else 0)
  }

  // A slot's book after unregister_connection with a number.
  function Reduced(counts: map<Signal, nat>, signal: Signal, n: nat): map<Signal, nat> {
    if signal !in counts then counts
    else if counts[signal] > n then counts[signal := counts[signal] - n]
    else counts - {signal}
  }

  lemma ReducedIsUnregister(counts: map<Signal, nat>, signal: Signal, n: nat)
    ensures var c := Reduced(counts, signal, n);
            && (if signal in c then c[signal] else 0) == Unregister(if signal in counts then counts[signal] else 0, n)
            && c - {signal} == counts - {signal}
    ensures var c := Reduced(counts, signal, n);
            (forall s :: s in counts ==> counts[s] > 0) ==> (forall s :: s in c ==> c[s] > 0)
  {
  }

  class Slot {
    var counts: map<Signal, nat>  // m_signal_connection_counts

    constructor ()
      ensures counts == map[]
    {
      counts := map[];
    }

    // No entry is kept at zero.
    ghost predicate Valid()
      reads this
    {
      forall s :: s in counts ==> counts[s] > 0
    }

    method Connect(signal: Signal)
      requires Valid()
      modifies this
      ensures Valid()
      ensures counts == old(counts)[signal := (if signal in old(counts) then old(counts)[signal] else 0) + 1]
    {
      var n := if signal in counts then counts[signal] else 0;
      counts := counts[signal := n + 1];
    }

    method UnregisterOne(signal: Signal) returns (last: bool)
      requires Valid()
      modifies this
      ensures Valid() && counts == Reduced(old(counts), signal, 1)
      ensures signal !in old(counts) ==> counts == old(counts)
      ensures signal in old(counts) && old(counts)[signal] > 1 ==>
                counts == old(counts)[signal := old(counts)[signal] - 1]
      ensures signal in old(counts) && old(counts)[signal] == 1 ==> counts == old(counts) - {signal}
      ensures last <==> signal in old(counts) && signal !in counts
    {
      if signal in counts {
        counts := counts[signal := counts[signal] - 1];
        if counts[signal] == 0 {
          counts := counts - {signal};
          return true;
        }
      }
      return false;
    }

    method UnregisterMany(signal: Signal, n: nat) returns (last: bool)
      modifies this
      ensures counts == Reduced(old(counts), signal, n)
      ensures signal !in old(counts) ==> counts == old(counts)
      ensures signal in old(counts) && old(counts)[signal] > n ==>
                counts == old(counts)[signal := old(counts)[signal] - n]
      ensures signal in old(counts) && old(counts)[signal] <= n ==> counts == old(counts) - {signal}
      ensures last <==> signal in old(counts) && signal !in counts
    {
      if signal in counts {
        if counts[signal] > n {
          counts := counts[signal := counts[signal] - n];
          return false;
        }
        counts := counts - {signal};
        return true;
      }
      return false;
    }

    // disconnect(signal)
    method Disconnect(signal: Signal)
      requires Valid() && signal.Valid()
      modifies this, signal
      ensures Valid() && signal.Valid()
      ensures LinkOf(signal, this) == Next(old(LinkOf(signal, this)), DisconnectSignal)
      ensures counts == old(counts) - {signal}
      ensures signal.slotConnections
           == if signal in old(counts) then old(signal.slotConnections) - {this} else old(signal.slotConnections)
    {
      if signal in counts {
        counts := counts - {signal};
        signal.DisconnectSlot(this);
      }
    }

    // disconnect_all()
    method DisconnectAll()
      requires Valid() && forall s :: s in counts ==> s.Valid()
      modifies this, counts.Keys
      ensures counts == map[]
      ensures forall s :: s in old(counts) ==>
                && s.Valid()
                && LinkOf(s, this) == Next(old(LinkOf(s, this)), DisconnectSignal)
                && s.slotConnections == old(s.slotConnections) - {this}
    {
      ghost var was := counts;
      var todo := counts.Keys;
      counts := map[];
      while todo != {}
        invariant todo <= was.Keys
        invariant counts == map[]
        invariant forall s :: s in was ==> s.Valid()
        invariant forall s :: s in was && s !in todo ==> s.slotConnections == old(s.slotConnections) - {this}
        invariant forall s :: s in todo ==> s.slotConnections == old(s.slotConnections)
        decreases |todo|
        modifies this, was.Keys
      {
        HasMember(todo);
        var s: Signal :| s in todo;
        todo := todo - {s};
        s.DisconnectSlot(this);
      }
    }
  }

  class Signal {
    var slotConnections: map<Slot, seq<Func>>  // m_slot_connections
    var callables: nat                         // |m_callable_connections|

    constructor ()
      ensures slotConnections == map[] && callables == 0
    {
      slotConnections, callables := map[], 0;
    }

    // No entry is kept empty.
    ghost predicate Valid()
      reads this
    {
      forall t :: t in slotConnections ==> slotConnections[t] != []
    }

    method Connect(slot: Slot, f: Func)
      requires Valid() && slot.Valid()
      modifies this, slot
      ensures Valid() && slot.Valid() && callables == old(callables)
      ensures LinkOf(this, slot) == Next(old(LinkOf(this, slot)), Op.Connect(f))
      ensures LinkOf(this, slot).conns == old(LinkOf(this, slot)).conns + [f]
      ensures LinkOf(this, slot).count == old(LinkOf(this, slot)).count + 1
      ensures slotConnections - {slot} == old(slotConnections) - {slot}
      ensures slot.counts - {this} == old(slot.counts) - {this}
    {
      var conns := if slot in slotConnections then slotConnections[slot] else [];
      slotConnections := slotConnections[slot := conns + [f]];
      slot.Connect(this);
    }

    // disconnect(slot, member_func)
    method DisconnectFn(slot: Slot, f: Func)
      requires Valid() && slot.Valid()
      modifies this, slot
      ensures Valid() && slot.Valid() && callables == old(callables)
      ensures LinkOf(this, slot) == Next(old(LinkOf(this, slot)), Op.DisconnectFn(f))
      ensures Remain(LinkOf(this, slot).conns, old(LinkOf(this, slot)).conns, f)
      ensures var (was, count) := old((LinkOf(this, slot).conns, LinkOf(this, slot).count));
              LinkOf(this, slot).count == if f in was && count > 0 then count - 1 else count
      ensures slotConnections - {slot} == old(slotConnections) - {slot}
      ensures slot.counts - {this} == old(slot.counts) - {this}
    {
      WithoutRemain(LinkOf(this, slot).conns, f);
      hide Without, Remain;
      if slot !in slotConnections {
        return;
      }
      var conns := slotConnections[slot];
      var kept := Without(conns, f);
      if |kept| < |conns| {
        slotConnections := slotConnections[slot := kept];
        if kept == [] {
          slotConnections := slotConnections - {slot};
        }
        var last := slot.UnregisterOne(this);
      }
    }

    // disconnect(slot)
    method DisconnectSlot(slot: Slot)
      requires Valid() && slot.Valid()
      modifies this`slotConnections, slot
      ensures Valid() && slot.Valid()
      ensures LinkOf(this, slot) == Next(old(LinkOf(this, slot)), Op.DisconnectSlot)
      ensures var (n, count) := old((|LinkOf(this, slot).conns|, LinkOf(this, slot).count));
              LinkOf(this, slot).count == if count > n then count - n else 0
      ensures slotConnections == old(slotConnections) - {slot}
      ensures slot.counts - {this} == old(slot.counts) - {this}
      ensures this !in old(slot.counts) ==> slot.counts == old(slot.counts)
    {
      if slot in slotConnections {
        var n := |slotConnections[slot]|;
        slotConnections := slotConnections - {slot};
        var last := slot.UnregisterMany(this, n);
      }
    }

    // disconnect_all()
    method DisconnectAll()
      requires Valid() && forall t :: t in slotConnections ==> t.Valid()
      modifies this, slotConnections.Keys
      ensures slotConnections == map[] && callables == 0
      ensures forall t :: t in old(slotConnections) ==>
                && t.Valid()
                && LinkOf(this, t) == Next(old(LinkOf(this, t)), Op.DisconnectSlot)
                && t.counts - {this} == old(t.counts) - {this}
    {
      var pending := map t | t in slotConnections :: |slotConnections[t]|;
      slotConnections := map[];
      callables := 0;
      NotifyAll(pending);
      forall t | t in pending ensures LinkOf(this, t).count == Unregister(old(LinkOf(this, t)).count, pending[t])
          && t.Valid() && t.counts - {this} == old(t.counts) - {this} {
        ReducedIsUnregister(old(t.counts), this, pending[t]);
      }
    }

    method NotifyAll(pending: map<Slot, nat>)
      modifies pending.Keys
      ensures forall t :: t in pending ==> t.counts == Reduced(old(t.counts), this, pending[t])
    {
      hide Reduced;
      var todo := pending.Keys;
      while todo != {}
        invariant todo <= pending.Keys
        invariant forall t :: t in pending && t !in todo ==> t.counts == Reduced(old(t.counts), this, pending[t])
        invariant forall t :: t in todo ==> t.counts == old(t.counts)
        decreases |todo|
        modifies pending.Keys
      {
        HasMember(todo);
        var t: Slot :| t in todo;
        todo := todo - {t};
        NotifySlot(t, pending[t]);
      }
    }

    method NotifySlot(slot: Slot, n: nat)
      modifies slot
      ensures slot.counts == Reduced(old(slot.counts), this, n)
    {
      var last := slot.UnregisterMany(this, n);
    }
  }
}
