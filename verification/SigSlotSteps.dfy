// Disconnects step by step: between their steps they hold no lock.
//
// slot.disconnect(signal) erases the slot's count, takes the signal's entry
// and unregisters what it took; the signal's own disconnects only take and
// unregister.  connect() holds the signal's mutex throughout and is one step.
// For one pair, with any number of disconnects in progress and any connects
// between their steps.
module SigSlotSteps {
  import opened SigSlot

  // How many of the slot's own disconnects have erased the count and not yet
  // taken the entry, and what each disconnect that has taken will unregister.
  datatype State = State(link: Link, erased: nat, tickets: seq<nat>)

  datatype Action =
    | Attach(f: Func)
    | EraseCount      // slot.disconnect(signal): the first step
    | TakeErased      // its second step
    | TakeAll         // signal.disconnect(slot), or the signal's disconnect_all()
    | TakeFn(f: Func) // signal.disconnect(slot, f)
    | Unlist(k: nat)  // the last step of the k-th that has taken

  function TakeEntry(s: State): State {
    if s.link.conns == [] then s else s.(link := s.link.(conns := []), tickets := s.tickets + [|s.link.conns|])
  }

  function Step(s: State, a: Action): State {
    var l := s.link;
    match a
    case Attach(f) => s.(link := Next(l, Connect(f)))
    case EraseCount => if l.count == 0 then s else s.(link := l.(count := 0), erased := s.erased + 1)
    case TakeErased => if s.erased == 0 then s else TakeEntry(s.(erased := s.erased - 1))
    case TakeAll => TakeEntry(s)
    case TakeFn(f) =>
      if f !in l.conns then s else s.(link := l.(conns := Without(l.conns, f)), tickets := s.tickets + [1])
    case Unlist(k) =>
      if k >= |s.tickets| then s
      else s.(link := l.(count := Unregister(l.count, s.tickets[k])), tickets := s.tickets[..k] + s.tickets[k + 1..])
  }

  function Exec(s: State, acts: seq<Action>): State {
    if acts == [] then s else Step(Exec(s, acts[..|acts| - 1]), acts[|acts| - 1])
  }

  const START := State(UNLINKED, 0, [])

  function After(acts: seq<Action>): State {
    Exec(START, acts)
  }

  predicate Quiet(s: State) {
    s.erased == 0 && s.tickets == []
  }

  // ----- The atomic operations ---------------------------------------------

  function At(l: Link): State {
    State(l, 0, [])
  }

  // Without interruption the steps are the operations of SigSlot.
  lemma UninterruptedIsAtomic(l: Link, f: Func)
    ensures l.count > 0 && l.conns != [] ==>
              Exec(At(l), [EraseCount, TakeErased, Unlist(0)]) == At(Next(l, DisconnectSignal))
    ensures l.count > 0 && l.conns == [] ==> Exec(At(l), [EraseCount, TakeErased]) == At(Next(l, DisconnectSignal))
    ensures l.count == 0 ==> Exec(At(l), [EraseCount]) == At(Next(l, DisconnectSignal))
    ensures Exec(At(l), [TakeAll, Unlist(0)]) == At(Next(l, DisconnectSlot))
    ensures Exec(At(l), [TakeFn(f), Unlist(0)]) == At(Next(l, DisconnectFn(f)))
  {
    ExecThree(At(l), EraseCount, TakeErased, Unlist(0));
    ExecTwo(At(l), EraseCount, TakeErased);
    ExecTwo(At(l), TakeAll, Unlist(0));
    ExecTwo(At(l), TakeFn(f), Unlist(0));
  }

  lemma ExecTwo(s: State, a: Action, b: Action)
    ensures Exec(s, [a, b]) == Step(Step(s, a), b)
  {
    hide Step;
    assert [a, b][..1] == [a];
    assert Exec(s, [a]) == Step(s, a);
  }

  lemma ExecThree(s: State, a: Action, b: Action, c: Action)
    ensures Exec(s, [a, b, c]) == Step(Step(Step(s, a), b), c)
  {
    hide Step;
    assert [a, b, c][..2] == [a, b];
    ExecTwo(s, a, b);
  }

  // ----- The exact law -----------------------------------------------------

  function Sum(tickets: seq<nat>): nat {
    if tickets == [] then 0 else tickets[0] + Sum(tickets[1..])
  }

  // What the signal holds and what is taken but not yet unregistered.
  function Outstanding(s: State): nat {
    |s.link.conns| + Sum(s.tickets)
  }

  // How many connections a step removes beyond the one it will unregister.
  function Excess(s: State, a: Action): nat {
    if a.TakeFn? && a.f in s.link.conns then multiset(s.link.conns)[a.f] - 1 else 0
  }

  // The same, summed over the actions from the k-th on.
  function ExcessFrom(acts: seq<Action>, k: nat): nat
    requires k <= |acts|
    decreases |acts|
  {
    if k == |acts| then 0
    else ExcessFrom(acts[..|acts| - 1], k) + Excess(After(acts[..|acts| - 1]), acts[|acts| - 1])
  }

  // From the k-th moment on no count was erased.
  predicate NoEraseFrom(acts: seq<Action>, k: nat) {
    forall i :: k <= i < |acts| ==> acts[i] != EraseCount || After(acts[..i]).link.count == 0
  }

  // Some moment since the last erase at which nothing more was outstanding
  // than has been removed in excess since.
  ghost predicate Recovered(acts: seq<Action>) {
    exists k :: RecoveredAt(acts, k)
  }

  predicate RecoveredAt(acts: seq<Action>, k: nat) {
    k <= |acts| && NoEraseFrom(acts, k) && Outstanding(After(acts[..k])) <= ExcessFrom(acts, k)
  }

  // The count exceeds what is outstanding by the largest such difference.
  function Slack(acts: seq<Action>): int {
    var here := 0 - Outstanding(After(acts));
    if acts == [] then 0
    else
      var p, a := acts[..|acts| - 1], acts[|acts| - 1];
      if a == EraseCount && After(p).link.count > 0 then here
      else
        var then' := Slack(p) + Excess(After(p), a);
        if here > then' then here else then'
  }

  lemma {:induction false} SumSnoc(t: seq<nat>, n: nat)
    ensures Sum(t + [n]) == Sum(t) + n
  {
    if t == [] {
    } else {
      assert (t + [n])[1..] == t[1..] + [n];
      SumSnoc(t[1..], n);
    }
  }

  lemma {:induction false} SumWithout(t: seq<nat>, k: nat)
    requires k < |t|
    ensures Sum(t[..k] + t[k + 1..]) == Sum(t) - t[k]
  {
    if k == 0 {
      assert t[..0] + t[1..] == t[1..];
    } else {
      assert (t[..k] + t[k + 1..])[1..] == t[1..][..k - 1] + t[1..][k..];
      SumWithout(t[1..], k - 1);
    }
  }

  // What one step does to the count and to what is outstanding.
  lemma StepBalance(s: State, a: Action)
    ensures var u := Step(s, a);
            match a
            case Attach(_) => u.link.count == s.link.count + 1 && Outstanding(u) == Outstanding(s) + 1
            case EraseCount => u.link.count == 0 && Outstanding(u) == Outstanding(s)
            case Unlist(k) =>
              if k >= |s.tickets| then u == s
              else
                && u.link.count == Unregister(s.link.count, s.tickets[k])
                && Outstanding(u) == Outstanding(s) - s.tickets[k]
            case _ => u.link.count == s.link.count && Outstanding(u) == Outstanding(s) - Excess(s, a)
  {
    var u := Step(s, a);
    if a.TakeFn? {
      WithoutCount(s.link.conns, a.f);
    }
    if a.Unlist? && a.k < |s.tickets| {
      SumWithout(s.tickets, a.k);
    } else if |u.tickets| == |s.tickets| + 1 {
      SumSnoc(s.tickets, u.tickets[|s.tickets|]);
    }
  }

  lemma {:induction false} CountLaw(acts: seq<Action>)
    ensures After(acts).link.count == Outstanding(After(acts)) + Slack(acts)
  {
    if acts == [] {
    } else {
      var p, a := acts[..|acts| - 1], acts[|acts| - 1];
      CountLaw(p);
      StepBalance(After(p), a);
      hide Outstanding, Step, Exec;
      assert After(acts) == Step(After(p), a) by {
        AfterLast(acts);
      }
    }
  }

  lemma AfterLast(acts: seq<Action>)
    requires acts != []
    ensures After(acts) == Step(After(acts[..|acts| - 1]), acts[|acts| - 1])
  {
  }

  // Slack is the largest difference over the moments since the last erase.
  lemma {:induction false} SlackReached(acts: seq<Action>) returns (k: nat)
    ensures k <= |acts| && NoEraseFrom(acts, k)
    ensures Slack(acts) == ExcessFrom(acts, k) - Outstanding(After(acts[..k]))
  {
    hide After, Outstanding, Excess;
    k := |acts|;
    assert acts[..|acts|] == acts;
    if acts == [] {
      StartIsEmpty();
    } else {
      var p, a := acts[..|acts| - 1], acts[|acts| - 1];
      if a == EraseCount && After(p).link.count > 0 {
      } else if Slack(p) + Excess(After(p), a) >= 0 - Outstanding(After(acts)) {
        k := SlackReached(p);
        PrefixOfPrefix(acts, k);
      }
    }
  }

  lemma {:induction false} SlackIsLargest(acts: seq<Action>, k: nat)
    requires k <= |acts| && NoEraseFrom(acts, k)
    ensures Slack(acts) >= ExcessFrom(acts, k) - Outstanding(After(acts[..k]))
    decreases |acts|
  {
    hide After, Outstanding, Excess;
    assert acts[..|acts|] == acts;
    if acts == [] {
      StartIsEmpty();
    } else if k < |acts| {
      var n := |acts| - 1;
      PrefixOfPrefix(acts, k);
      assert acts[n] != EraseCount || After(acts[..n]).link.count == 0;
      SlackIsLargest(acts[..n], k);
    }
  }

  lemma StartIsEmpty()
    ensures Outstanding(After([])) == 0
  {
  }

  lemma PrefixOfPrefix(acts: seq<Action>, k: nat)
    requires k < |acts|
    ensures acts[..|acts| - 1][..k] == acts[..k]
    ensures NoEraseFrom(acts, k) <==>
              && NoEraseFrom(acts[..|acts| - 1], k)
              && (acts[|acts| - 1] != EraseCount || After(acts[..|acts| - 1]).link.count == 0)
  {
    hide After;
    var p := acts[..|acts| - 1];
    assert forall i :: 0 <= i < |p| ==> p[..i] == acts[..i] && p[i] == acts[i];
  }

  // At every moment of every run the slot's count covers what the signal holds
  // and what is still to be unregistered, exactly when the run has recovered
  // from its last erase.  So whenever no disconnect is in progress the count is
  // at least the number of connections held exactly then.
  lemma AgreementIff(acts: seq<Action>)
    ensures After(acts).link.count >= |After(acts).link.conns| + Sum(After(acts).tickets) <==> Recovered(acts)
    ensures Quiet(After(acts)) ==> (After(acts).link.count >= |After(acts).link.conns| <==> Recovered(acts))
  {
    CountLaw(acts);
    if Slack(acts) >= 0 {
      var k := SlackReached(acts);
      assert RecoveredAt(acts, k);
    }
    if Recovered(acts) {
      var k :| RecoveredAt(acts, k);
      SlackIsLargest(acts, k);
    }
    hide After, Slack, RecoveredAt;
  }

  // ----- Runs that never remove a function twice ---------------------------

  predicate NoExcess(acts: seq<Action>) {
    forall i :: 0 <= i < |acts| ==> Excess(After(acts[..i]), acts[i]) == 0
  }

  // In such a run that is: since the last erase there was a moment at which
  // the signal held no connection and nothing taken was still to unregister.
  lemma SimpleAgreementIff(acts: seq<Action>)
    requires NoExcess(acts) && Quiet(After(acts))
    ensures After(acts).link.count >= |After(acts).link.conns|
       <==> exists k :: 0 <= k <= |acts| && NoEraseFrom(acts, k) && Outstanding(After(acts[..k])) == 0
  {
    AgreementIff(acts);
    forall k | 0 <= k <= |acts|
      ensures RecoveredAt(acts, k) <==> NoEraseFrom(acts, k) && Outstanding(After(acts[..k])) == 0
    {
      ExcessIsZero(acts, k);
    }
    hide After, Outstanding, NoEraseFrom, NoExcess;
    if Recovered(acts) {
      var k :| RecoveredAt(acts, k);
    }
  }

  lemma {:induction false} ExcessIsZero(acts: seq<Action>, k: nat)
    requires NoExcess(acts) && k <= |acts|
    ensures ExcessFrom(acts, k) == 0
    decreases |acts|
  {
    hide After, Excess;
    if k < |acts| {
      var p := acts[..|acts| - 1];
      assert forall i :: 0 <= i < |p| ==> p[..i] == acts[..i] && p[i] == acts[i];
      ExcessIsZero(p, k);
    }
  }

  // ----- What callers can see to -------------------------------------------

  // No connect comes while a disconnect of the pair is in progress.
  predicate ConnectsWhenQuiet(acts: seq<Action>) {
    forall i :: 0 <= i < |acts| && acts[i].Attach? ==> Quiet(After(acts[..i]))
  }

  predicate Safe(acts: seq<Action>) {
    Slack(acts) >= 0 || After(acts).erased > 0 || After(acts).link.conns == []
  }

  lemma {:induction false} StaysSafe(acts: seq<Action>)
    requires ConnectsWhenQuiet(acts)
    ensures Safe(acts)
  {
    hide After, Step;
    if acts == [] {
      assert Slack(acts) == 0;
    } else {
      var p, a := acts[..|acts| - 1], acts[|acts| - 1];
      assert forall i :: 0 <= i < |p| ==> p[..i] == acts[..i] && p[i] == acts[i];
      StaysSafe(p);
      CountLaw(p);
      AfterLast(acts);
      SafeStep(p, a, acts);
    }
  }

  lemma SafeStep(p: seq<Action>, a: Action, acts: seq<Action>)
    requires acts == p + [a] && Safe(p) && After(acts) == Step(After(p), a)
    requires After(p).link.count == Outstanding(After(p)) + Slack(p)
    requires a.Attach? ==> Quiet(After(p))
    ensures Safe(acts)
  {
    assert acts[..|acts| - 1] == p && acts[|acts| - 1] == a;
    hide After;
  }

  // Then the count suffices whenever no disconnect is in progress.
  lemma QuietConnectsAgree(acts: seq<Action>)
    requires ConnectsWhenQuiet(acts) && Quiet(After(acts))
    ensures After(acts).link.count >= |After(acts).link.conns|
  {
    StaysSafe(acts);
    CountLaw(acts);
    hide After, Slack;
  }

  // ----- Runs in which it does not -----------------------------------------

  // A connect before the take does no harm; one after it stays uncounted.
  lemma LateConnect(l: Link, f: Func)
    requires l.conns != [] && l.count > 0
    ensures Exec(At(l), [EraseCount, Attach(f), TakeErased, Unlist(0)]) == At(UNLINKED)
    ensures Exec(At(l), [EraseCount, TakeErased, Attach(f), Unlist(0)]) == At(Link([f], 0))
  {
    var s := At(l);
    assert [EraseCount, Attach(f), TakeErased, Unlist(0)][..3] == [EraseCount, Attach(f), TakeErased];
    assert [EraseCount, TakeErased, Attach(f), Unlist(0)][..3] == [EraseCount, TakeErased, Attach(f)];
    ExecThree(s, EraseCount, Attach(f), TakeErased);
    ExecThree(s, EraseCount, TakeErased, Attach(f));
  }

  // Two disconnects that cross: the signal's has taken the entry, the slot's
  // own runs to its end and finds nothing, and a connect comes before the
  // first unregisters.
  lemma CrossedDisconnects(f: Func, g: Func)
    ensures After([Attach(f), TakeAll, EraseCount, TakeErased, Attach(g), Unlist(0)]) == At(Link([g], 0))
  {
    var first, last := [Attach(f), TakeAll, EraseCount], [TakeErased, Attach(g), Unlist(0)];
    assert [Attach(f), TakeAll, EraseCount, TakeErased, Attach(g), Unlist(0)] == first + last;
    ExecConcat(START, first, last);
    ExecThree(START, Attach(f), TakeAll, EraseCount);
    ExecThree(Exec(START, first), TakeErased, Attach(g), Unlist(0));
  }

  lemma {:induction false} ExecConcat(s: State, a: seq<Action>, b: seq<Action>)
    ensures Exec(s, a + b) == Exec(Exec(s, a), b)
  {
    hide Step;
    if b == [] {
      assert a + b == a;
    } else {
      assert (a + b)[..|a + b| - 1] == a + b[..|b| - 1];
      ExecConcat(s, a, b[..|b| - 1]);
    }
  }
}
