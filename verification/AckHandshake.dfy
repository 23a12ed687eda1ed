// send_sync and handle_ack: a request and its acknowledgement on two threads.
//
// send_mutex_ lets one sender in at a time, and acknowledgements come from the
// one parser thread; everything else may interleave.
module AckHandshake {
  import opened Bytes
  import opened UbxProtocol

  // The sender's program counter, with the class and id of the frame it sends.
  datatype Sender =
    | Outside
    | Called(cls: byte, id: byte)      // about to reset the toggle
    | Cleared(cls: byte, id: byte)     // about to store the class
    | HalfStored(cls: byte, id: byte)  // about to store the id
    | Stored(cls: byte, id: byte)      // about to send
    | Waiting(cls: byte, id: byte)
    | TimedOut                         // about to overwrite the class
    | HalfWiped                        // about to overwrite the id
    | Returned(ok: bool)

  // Inside handle_ack.  `early` says that the call began before the current
  // send_sync had stored both its bytes.
  datatype Handler =
    | NoAck
    | Began(cls: byte, id: byte, early: bool)
    | ClassEqual(cls: byte, id: byte, early: bool)
    | BothEqual(cls: byte, id: byte, early: bool)  // about to set the toggle

  datatype Hit = Hit(cls: byte, id: byte, early: bool)

  datatype State = State(
    toggle: bool,
    cls: byte,       // last_sent_class_id_
    id: byte,        // last_sent_msg_id_
    sender: Sender,
    handler: Handler,
    hits: seq<Hit>)  // what has set the toggle since it was last reset

  datatype AckStep = Handle(cls: byte, id: byte, isAck: bool) | CompareClass | CompareId | SetToggle

  datatype Action =
    | Call(msg: seq<byte>)
    | Reset
    | StoreClass
    | StoreId
    | Send(ok: bool)
    | Wake
    | GiveUp
    | WipeClass
    | WipeId
    | Ack(step: AckStep)

  const INITIAL := State(false, NO_ID, NO_ID, Outside, NoAck, [])

  predicate Storing(sender: Sender) {
    sender.Called? || sender.Cleared? || sender.HalfStored?
  }

  function Overtaken(h: Handler): Handler {
    match h
    case NoAck => NoAck
    case Began(c, i, _) => Began(c, i, true)
    case ClassEqual(c, i, _) => ClassEqual(c, i, true)
    case BothEqual(c, i, _) => BothEqual(c, i, true)
  }

  function AckNext(s: State, step: AckStep): State {
    match s.handler
    case NoAck =>
      // A negative acknowledgement stops at the first conjunct.
      if step.Handle? && step.isAck then s.(handler := Began(step.cls, step.id, Storing(s.sender))) else s
    case Began(c, i, early) =>
      if step.CompareClass? then s.(handler := if c == s.cls then ClassEqual(c, i, early) else NoAck) else s
    case ClassEqual(c, i, early) =>
      if step.CompareId? then s.(handler := if i == s.id then BothEqual(c, i, early) else NoAck) else s
    case BothEqual(c, i, early) =>
      if step.SetToggle? then s.(toggle := true, handler := NoAck, hits := s.hits + [Hit(c, i, early)]) else s
  }

  const NO_ID: byte := 0xFF

  // An action whose thread is not at that point changes nothing.
  function Next(s: State, a: Action): State {
    if a.Ack? then AckNext(s, a.step) else SendNext(s, a)
  }

  function SendNext(s: State, a: Action): State {
    match s.sender
    case Outside => Enter(s, a)
    case Returned(_) => Enter(s, a)
    case Called(c, i) =>
      if a.Reset? then s.(toggle := false, sender := Cleared(c, i), handler := Overtaken(s.handler), hits := []) else s
    case Cleared(c, i) => if a.StoreClass? then s.(cls := c, sender := HalfStored(c, i)) else s
    case HalfStored(c, i) => if a.StoreId? then s.(id := i, sender := Stored(c, i)) else s
    case Stored(c, i) => if a.Send? then s.(sender := if a.ok then Waiting(c, i) else Returned(false)) else s
    case Waiting(c, i) =>
      // wait_for looks at the toggle once more when the time is up.
      if a.Wake? && s.toggle then s.(sender := Returned(true))
      else if a.GiveUp? && !s.toggle then s.(sender := TimedOut)
      else s
    case TimedOut => if a.WipeClass? then s.(cls := NO_ID, sender := HalfWiped) else s
    case HalfWiped => if a.WipeId? then s.(id := NO_ID, sender := Returned(false)) else s
  }

  function Enter(s: State, a: Action): State {
    if !a.Call? then s
    else if Verifies(a.msg) then s.(sender := Called(a.msg[2], a.msg[3]))
    else s.(sender := Returned(false))
  }

  function Exec(s: State, acts: seq<Action>): State
    decreases |acts|
  {
    if acts == [] then s else Exec(Next(s, acts[0]), acts[1..])
  }

  lemma {:induction false} ExecConcat(s: State, a: seq<Action>, b: seq<Action>)
    ensures Exec(s, a + b) == Exec(Exec(s, a), b)
    decreases |a|
  {
    hide Next;
    if a == [] {
      assert a + b == b;
    } else {
      assert (a + b)[1..] == a[1..] + b;
      ExecConcat(Next(s, a[0]), a[1..], b);
    }
  }

  // ----- What every interleaving keeps -------------------------------------

  // The frame being sent, once both its bytes are stored.
  predicate Sent(sender: Sender) {
    sender.Stored? || sender.Waiting?
  }

  predicate Invariant(s: State) {
    && (s.toggle <==> s.hits != [])
    && (s.sender.HalfStored? ==> s.cls == s.sender.cls)
    && (Sent(s.sender) ==> s.cls == s.sender.cls && s.id == s.sender.id && OwnOrEarly(s, s.sender.cls, s.sender.id))
    && (s.sender.Cleared? || s.sender.HalfStored? ==>
          && (forall h :: h in s.hits ==> h.early)
          && (s.handler != NoAck ==> s.handler.early))
  }

  // Every acknowledgement that began after the stores was compared with this
  // frame's own pair.
  predicate OwnOrEarly(s: State, cls: byte, id: byte) {
    && (forall h :: h in s.hits ==> h.early || (h.cls, h.id) == (cls, id))
    && (s.handler.ClassEqual? && !s.handler.early ==> s.handler.cls == cls)
    && (s.handler.BothEqual? && !s.handler.early ==> (s.handler.cls, s.handler.id) == (cls, id))
  }

  lemma NextInvariant(s: State, a: Action)
    requires Invariant(s)
    ensures Invariant(Next(s, a))
  {
    hide Verifies;
  }

  lemma {:induction false} Reachable(s: State, acts: seq<Action>)
    requires Invariant(s)
    ensures Invariant(Exec(s, acts))
    decreases |acts|
  {
    hide Invariant, Next;
    if acts == [] {
    } else {
      NextInvariant(s, acts[0]);
      Reachable(Next(s, acts[0]), acts[1..]);
    }
  }

  // Each hit comes from a positive handle_ack call of the run.
  predicate Traced(s: State, acts: seq<Action>) {
    && (forall h :: h in s.hits ==> Ack(Handle(h.cls, h.id, true)) in acts)
    && (s.handler != NoAck ==> Ack(Handle(s.handler.cls, s.handler.id, true)) in acts)
  }

  lemma {:induction false} HitsAreAcks(acts: seq<Action>)
    ensures Traced(Exec(INITIAL, acts), acts)
  {
    if acts == [] {
    } else {
      var p, a := acts[..|acts| - 1], acts[|acts| - 1];
      assert acts == p + [a];
      HitsAreAcks(p);
      ExecConcat(INITIAL, p, [a]);
      ExecOne(Exec(INITIAL, p), a);
      TracedNext(Exec(INITIAL, p), p, a);
    }
  }

  lemma ExecOne(s: State, a: Action)
    ensures Exec(s, [a]) == Next(s, a)
  {
    assert [a][1..] == [];
  }

  lemma TracedNext(s: State, acts: seq<Action>, a: Action)
    requires Traced(s, acts)
    ensures Traced(Next(s, a), acts + [a])
  {
    hide Verifies;
    assert forall x :: x in acts ==> x in acts + [a];
    assert a in acts + [a];
  }

  // The only way to return true, in every interleaving: since this call's
  // reset, a positive handle_ack has matched; and if its call began after the
  // stores, it named this very frame.
  lemma TrueMeansAcknowledged(acts: seq<Action>, a: Action)
    requires Exec(INITIAL, acts).sender != Returned(true)
    requires Exec(INITIAL, acts + [a]).sender == Returned(true)
    ensures var s := Exec(INITIAL, acts);
            && a == Wake && s.sender.Waiting? && s.hits != []
            && (forall h :: h in s.hits ==>
                  && Ack(Handle(h.cls, h.id, true)) in acts
                  && (h.early || (h.cls, h.id) == (s.sender.cls, s.sender.id)))
  {
    var s := Exec(INITIAL, acts);
    ExecConcat(INITIAL, acts, [a]);
    ExecOne(s, a);
    Reachable(INITIAL, acts);
    HitsAreAcks(acts);
    hide Exec, Verifies;
  }

  // A negative acknowledgement alone never makes send_sync return true: the
  // toggle is set only in runs where some handle_ack call was positive.
  lemma OnlyPositiveAcksCount(acts: seq<Action>)
    ensures Exec(INITIAL, acts).toggle ==> exists a :: a in acts && a.Ack? && a.step.Handle? && a.step.isAck
  {
    Reachable(INITIAL, acts);
    HitsAreAcks(acts);
    var s := Exec(INITIAL, acts);
    if s.toggle {
      assert s.hits[0] in s.hits;
    }
  }

  // ----- An acknowledgement while send_sync waits --------------------------

  // The steps occur among the actions, in this order.
  predicate InOrder(steps: seq<AckStep>, acts: seq<Action>)
    decreases |acts|
  {
    steps == [] || (acts != [] && InOrder(if acts[0] == Ack(steps[0]) then steps[1..] else steps, acts[1..]))
  }

  predicate NoCall(acts: seq<Action>) {
    forall a :: a in acts ==> !a.Call?
  }

  const HANDLE_ACK := [CompareClass, CompareId, SetToggle]

  // An acknowledgement of the frame waited for, with these steps still to go.
  predicate Pending(s: State, cls: byte, id: byte, left: nat) {
    && s.cls == cls && s.id == id && (s.sender == Waiting(cls, id) || (left == 0 && s.sender == Returned(true)))
    && (s.toggle <==> left == 0)
    && match left
       case 0 => true
       case 1 => s.handler.BothEqual?
       case 2 => s.handler.ClassEqual? && s.handler.id == id
       case 3 => s.handler.Began? && s.handler.cls == cls && s.handler.id == id
       case _ => false
  }

  predicate Failed(s: State) {
    s.sender == TimedOut || s.sender == HalfWiped || s.sender == Returned(false)
  }

  lemma {:induction false} PendingRun(s: State, cls: byte, id: byte, left: nat, acts: seq<Action>) returns (now: nat)
    requires left <= 3 && Pending(s, cls, id, left) && NoCall(acts) && GiveUp !in acts
    ensures now <= 3 && Pending(Exec(s, acts), cls, id, now)
    ensures now == 0 <==> InOrder(HANDLE_ACK[3 - left..], acts)
    decreases |acts|
  {
    if acts == [] {
      now := left;
    } else {
      var a := acts[0];
      var next := if left > 0 && a == Ack(HANDLE_ACK[3 - left]) then left - 1 else left;
      PendingStep(s, cls, id, left, a);
      if left > 0 {
        assert HANDLE_ACK[3 - left..][1..] == HANDLE_ACK[4 - left..];
      }
      now := PendingRun(Next(s, a), cls, id, next, acts[1..]);
    }
  }

  lemma PendingStep(s: State, cls: byte, id: byte, left: nat, a: Action)
    requires left <= 3 && Pending(s, cls, id, left) && !a.Call? && a != GiveUp
    ensures Pending(Next(s, a), cls, id, if left > 0 && a == Ack(HANDLE_ACK[3 - left]) then left - 1 else left)
  {
    hide Verifies;
  }

  lemma {:induction false} OutcomeStays(s: State, acts: seq<Action>)
    requires NoCall(acts)
    ensures Failed(s) ==> Failed(Exec(s, acts))
    ensures s.toggle && s.sender.Waiting? ==>
              Exec(s, acts).toggle && (Exec(s, acts).sender == s.sender || Exec(s, acts).sender == Returned(true))
    ensures s.sender == Returned(true) ==> Exec(s, acts).sender == Returned(true) && (s.toggle ==> Exec(s, acts).toggle)
    decreases |acts|
  {
    if acts == [] {
    } else {
      var u := Next(s, acts[0]);
      assert acts[0] in acts;
      assert (Failed(s) ==> Failed(u)) && (s.sender == Returned(true) ==> u.sender == Returned(true))
          && (s.toggle && (s.sender.Waiting? || s.sender.Returned?) ==> u.toggle)
          && (s.toggle && s.sender.Waiting? ==> u.sender == s.sender || u.sender == Returned(true)) by {
        hide Verifies;
      }
      hide Next, Failed;
      OutcomeStays(u, acts[1..]);
    }
  }

  // A positive acknowledgement of the frame, begun while send_sync waits for
  // it, makes the call return true exactly when its three steps all come
  // before the wait gives up; otherwise the call returns false, whatever comes
  // later.
  lemma OwnAckInTimeIff(s: State, before: seq<Action>, after: seq<Action>)
    requires Invariant(s) && s.sender.Waiting? && !s.toggle
    requires s.handler.Began? && (s.handler.cls, s.handler.id) == (s.sender.cls, s.sender.id)
    requires NoCall(before) && GiveUp !in before && NoCall(after)
    ensures var u := Exec(s, before + [GiveUp] + after);
            if InOrder(HANDLE_ACK, before) then u.toggle && (u.sender == s.sender || u.sender == Returned(true))
            else Failed(u)
  {
    var cls, id := s.sender.cls, s.sender.id;
    var left := PendingRun(s, cls, id, 3, before);
    assert HANDLE_ACK[0..] == HANDLE_ACK;
    var t := Exec(s, before);
    ExecConcat(s, before + [GiveUp], after);
    ExecConcat(s, before, [GiveUp]);
    ExecOne(t, GiveUp);
    OutcomeStays(Next(t, GiveUp), after);
    hide Exec, InOrder, Verifies;
  }

  // A set toggle leaves the waiting sender no step but to return true.
  lemma SetToggleDecides(s: State, a: Action)
    requires s.sender.Waiting? && s.toggle && Next(s, a).sender != s.sender
    ensures a == Wake && Next(s, a).sender == Returned(true)
  {
  }

  // ----- The window between the reset and the stores -----------------------

  // After a success (or a failed send) the old pair stays stored.  A late
  // acknowledgement of the old frame that arrives after the next call's reset
  // and before its stores makes that call return true for a frame nobody has
  // acknowledged.  Whatever acknowledgement was in progress is let finish first.
  function Window(msg: seq<byte>, cls: byte, id: byte): seq<Action> {
    [Call(msg), Ack(CompareClass), Ack(CompareId), Ack(SetToggle)]
    + ([Reset] + ([Ack(Handle(cls, id, true)), Ack(CompareClass), Ack(CompareId), Ack(SetToggle)] + REST))
  }

  const REST := [StoreClass, StoreId, Send(true), Wake]

  lemma OldAckInWindow(s: State, msg: seq<byte>)
    requires (s.sender == Outside || s.sender.Returned?) && Verifies(msg)
    ensures var u := Exec(s, Window(msg, s.cls, s.id));
            u.sender == Returned(true) && u.hits == [Hit(s.cls, s.id, true)]
  {
    hide Verifies;
    VerifiedLength(msg);
    var c, i := msg[2], msg[3];
    var first := [Call(msg), Ack(CompareClass), Ack(CompareId), Ack(SetToggle)];
    var ack := [Ack(Handle(s.cls, s.id, true)), Ack(CompareClass), Ack(CompareId), Ack(SetToggle)];
    ExecConcat(s, first, [Reset] + (ack + REST));
    FinishBeforeReset(s, msg, first);
    var s1 := Exec(s, first);
    ExecConcat(s1, [Reset], ack + REST);
    ExecOne(s1, Reset);
    var s2 := Next(s1, Reset);
    ExecConcat(s2, ack, REST);
    OldAckSets(s2, c, i, ack);
    NewFrameReturns(Exec(s2, ack), c, i);
    hide Exec;
  }

  // Called, with the handler idle and the stored pair untouched.
  lemma FinishBeforeReset(s: State, msg: seq<byte>, first: seq<Action>)
    requires (s.sender == Outside || s.sender.Returned?) && Verifies(msg) && |msg| >= 8
    requires first == [Call(msg), Ack(CompareClass), Ack(CompareId), Ack(SetToggle)]
    ensures var u := Exec(s, first);
            u.sender == Called(msg[2], msg[3]) && u.handler == NoAck && u.cls == s.cls && u.id == s.id
  {
    ExecFour(s, first);
    hide Verifies;
  }

  // An interleaving of one call with the parser thread.
  predicate OneCall(msg: seq<byte>, acts: seq<Action>) {
    acts != [] && acts[0] == Call(msg) && NoCall(acts[1..])
  }

  predicate ReturnsTrue(s: State, msg: seq<byte>, acts: seq<Action>) {
    OneCall(msg, acts) && Exec(s, acts).sender == Returned(true)
  }

  // Can this acknowledgement still set the toggle while the pair is stored?
  predicate StillSets(h: Handler, cls: byte, id: byte) {
    match h
    case NoAck => false
    case Began(c, i, _) => (c, i) == (cls, id)
    case ClassEqual(_, i, _) => i == id
    case BothEqual(_, _, _) => true
  }

  // And does it name another frame?
  predicate SetsForeign(h: Handler, cls: byte, id: byte) {
    StillSets(h, cls, id) && (h.cls, h.id) != (cls, id)
  }

  // In a call whose own pair was stored already and that can still succeed.
  predicate Underway(s: State, cls: byte, id: byte) {
    && s.cls == cls && s.id == id
    && (|| s.sender == Called(cls, id) || s.sender == Cleared(cls, id) || s.sender == HalfStored(cls, id)
        || s.sender == Stored(cls, id) || s.sender == Waiting(cls, id) || s.sender == Returned(true))
  }

  // The toggle needs an acknowledgement of the frame that began in the call.
  predicate NeedsOwn(s: State, cls: byte, id: byte, heard: bool) {
    Failed(s) ||
    (&& Underway(s, cls, id)
     && (StillSets(s.handler, cls, id) ==> heard)
     && (!s.sender.Called? && s.toggle ==> heard)
     && (s.sender == Returned(true) ==> heard))
  }

  // What sets the toggle names the frame.
  predicate HitsOwn(s: State, cls: byte, id: byte) {
    Failed(s) ||
    (&& Underway(s, cls, id)
     && (StillSets(s.handler, cls, id) ==> (s.handler.cls, s.handler.id) == (cls, id))
     && (!s.sender.Called? ==> forall h :: h in s.hits ==> (h.cls, h.id) == (cls, id)))
  }

  lemma NeedsOwnNext(s: State, cls: byte, id: byte, heard: bool, a: Action)
    requires NeedsOwn(s, cls, id, heard) && !a.Call?
    ensures NeedsOwn(Next(s, a), cls, id, heard || a == Ack(Handle(cls, id, true)))
  {
    hide Verifies;
  }

  lemma HitsOwnNext(s: State, cls: byte, id: byte, a: Action)
    requires HitsOwn(s, cls, id) && !a.Call?
    ensures HitsOwn(Next(s, a), cls, id)
  {
    hide Verifies;
  }

  lemma {:induction false} NeedsOwnRun(s: State, cls: byte, id: byte, heard: bool, acts: seq<Action>)
    requires NeedsOwn(s, cls, id, heard) && NoCall(acts)
    ensures NeedsOwn(Exec(s, acts), cls, id, heard || Ack(Handle(cls, id, true)) in acts)
    decreases |acts|
  {
    hide NeedsOwn, Next;
    if acts == [] {
    } else {
      assert acts[0] in acts;
      var own := Ack(Handle(cls, id, true));
      NeedsOwnNext(s, cls, id, heard, acts[0]);
      NeedsOwnRun(Next(s, acts[0]), cls, id, heard || acts[0] == own, acts[1..]);
      assert own in acts <==> acts[0] == own || own in acts[1..];
    }
  }

  lemma {:induction false} HitsOwnRun(s: State, cls: byte, id: byte, acts: seq<Action>)
    requires HitsOwn(s, cls, id) && NoCall(acts)
    ensures HitsOwn(Exec(s, acts), cls, id)
    decreases |acts|
  {
    hide HitsOwn, Next;
    if acts == [] {
    } else {
      assert acts[0] in acts;
      HitsOwnNext(s, cls, id, acts[0]);
      HitsOwnRun(Next(s, acts[0]), cls, id, acts[1..]);
    }
  }

  lemma OwnPairIsSafe(s: State, msg: seq<byte>, acts: seq<Action>)
    requires (s.sender == Outside || s.sender.Returned?) && Verifies(msg) && |msg| >= 8
    requires (s.cls, s.id) == (msg[2], msg[3]) && ReturnsTrue(s, msg, acts)
    ensures !StillSets(s.handler, msg[2], msg[3]) ==> Ack(Handle(msg[2], msg[3], true)) in acts
    ensures !SetsForeign(s.handler, msg[2], msg[3]) ==>
              forall h :: h in Exec(s, acts).hits ==> (h.cls, h.id) == (msg[2], msg[3])
  {
    var u := Next(s, Call(msg));
    hide Verifies;
    if !StillSets(s.handler, msg[2], msg[3]) {
      NeedsOwnRun(u, msg[2], msg[3], false, acts[1..]);
    }
    if !SetsForeign(s.handler, msg[2], msg[3]) {
      HitsOwnRun(u, msg[2], msg[3], acts[1..]);
    }
    hide Exec;
  }

  // An acknowledgement in progress as the call begins, and only that one, sets
  // the toggle after the reset.
  function Straggler(msg: seq<byte>): seq<Action> {
    [Call(msg), Reset]
    + ([Ack(CompareClass), Ack(CompareId), Ack(SetToggle), StoreClass] + [StoreId, Send(true), Wake, Wake])
  }

  lemma StragglerSucceeds(s: State, msg: seq<byte>)
    requires (s.sender == Outside || s.sender.Returned?) && Verifies(msg) && |msg| >= 8
    requires (s.cls, s.id) == (msg[2], msg[3]) && StillSets(s.handler, msg[2], msg[3])
    ensures var u := Exec(s, Straggler(msg));
            u.sender == Returned(true) && u.hits == [Hit(s.handler.cls, s.handler.id, true)]
  {
    var c, i := msg[2], msg[3];
    var mid, last := [Ack(CompareClass), Ack(CompareId), Ack(SetToggle), StoreClass], [StoreId, Send(true), Wake, Wake];
    ExecConcat(s, [Call(msg), Reset], mid + last);
    ExecTwo(s, Call(msg), Reset);
    var s1 := Next(Next(s, Call(msg)), Reset);
    hide Verifies;
    assert s1 == s.(toggle := false, sender := Cleared(c, i), handler := Overtaken(s.handler), hits := []);
    ExecConcat(s1, mid, last);
    StragglerSets(s1, c, i, mid);
    HalfStoredReturns(Exec(s1, mid), c, i, last);
    hide Exec, Next;
  }

  lemma HalfStoredReturns(s: State, cls: byte, id: byte, last: seq<Action>)
    requires s.sender == HalfStored(cls, id) && s.toggle && last == [StoreId, Send(true), Wake, Wake]
    ensures Exec(s, last).sender == Returned(true) && Exec(s, last).hits == s.hits
  {
    ExecFour(s, last);
  }

  lemma StragglerSets(s: State, cls: byte, id: byte, mid: seq<Action>)
    requires s.sender == Cleared(cls, id) && s.cls == cls && s.id == id && s.hits == []
    requires StillSets(s.handler, cls, id) && s.handler.early
    requires mid == [Ack(CompareClass), Ack(CompareId), Ack(SetToggle), StoreClass]
    ensures Exec(s, mid)
         == s.(toggle := true, handler := NoAck, hits := [Hit(s.handler.cls, s.handler.id, true)],
               sender := HalfStored(cls, id))
  {
    ExecFour(s, mid);
  }

  // Some interleaving makes send_sync return true for a frame whose
  // acknowledgement does not begin during the call, exactly when the pair left
  // stored is not the frame's own, or an acknowledgement in progress as the
  // call begins can still set the toggle.  It returns true on the
  // acknowledgement of another pair exactly when the stored pair is another,
  // or the one in progress names another.
  lemma FalseSuccessIff(s: State, msg: seq<byte>)
    requires (s.sender == Outside || s.sender.Returned?) && Verifies(msg)
    ensures |msg| >= 8
    ensures (exists acts :: ReturnsTrue(s, msg, acts) && Ack(Handle(msg[2], msg[3], true)) !in acts)
       <==> (s.cls, s.id) != (msg[2], msg[3]) || StillSets(s.handler, msg[2], msg[3])
    ensures (exists acts, h ::
              ReturnsTrue(s, msg, acts) && h in Exec(s, acts).hits && (h.cls, h.id) != (msg[2], msg[3]))
       <==> || (s.cls, s.id) != (msg[2], msg[3])
            || SetsForeign(s.handler, msg[2], msg[3])
  {
    VerifiedLength(msg);
    if (s.cls, s.id) != (msg[2], msg[3]) {
      OldAckInWindow(s, msg);
      WindowIsOneCall(msg, s.cls, s.id);
      Witness(s, msg, Window(msg, s.cls, s.id), Hit(s.cls, s.id, true));
    } else {
      if StillSets(s.handler, msg[2], msg[3]) {
        StragglerSucceeds(s, msg);
        StragglerIsOneCall(msg);
        Witness(s, msg, Straggler(msg), Hit(s.handler.cls, s.handler.id, true));
      }
      forall acts | ReturnsTrue(s, msg, acts)
        ensures !StillSets(s.handler, msg[2], msg[3]) ==> Ack(Handle(msg[2], msg[3], true)) in acts
        ensures !SetsForeign(s.handler, msg[2], msg[3]) ==>
                  forall h :: h in Exec(s, acts).hits ==> (h.cls, h.id) == (msg[2], msg[3]) {
        OwnPairIsSafe(s, msg, acts);
      }
      hide Exec, ReturnsTrue, StillSets, Verifies;
    }
  }

  lemma Witness(s: State, msg: seq<byte>, acts: seq<Action>, h: Hit)
    requires |msg| >= 8 && OneCall(msg, acts) && Exec(s, acts).sender == Returned(true) && Exec(s, acts).hits == [h]
    ensures ReturnsTrue(s, msg, acts) && h in Exec(s, acts).hits
  {
  }

  lemma StragglerIsOneCall(msg: seq<byte>)
    ensures OneCall(msg, Straggler(msg))
    ensures forall c: byte, i: byte :: Ack(Handle(c, i, true)) !in Straggler(msg)
  {
  }

  lemma WindowIsOneCall(msg: seq<byte>, cls: byte, id: byte)
    ensures OneCall(msg, Window(msg, cls, id))
    ensures forall c: byte, i: byte :: (c, i) != (cls, id) ==> Ack(Handle(c, i, true)) !in Window(msg, cls, id)
  {
  }

  lemma OldAckSets(s: State, cls: byte, id: byte, ack: seq<Action>)
    requires s.sender == Cleared(cls, id) && s.handler == NoAck && s.hits == []
    requires ack == [Ack(Handle(s.cls, s.id, true)), Ack(CompareClass), Ack(CompareId), Ack(SetToggle)]
    ensures Exec(s, ack) == s.(toggle := true, hits := [Hit(s.cls, s.id, true)])
  {
    ExecFour(s, ack);
  }

  lemma NewFrameReturns(s: State, cls: byte, id: byte)
    requires s.sender == Cleared(cls, id) && s.toggle
    ensures Exec(s, REST) == s.(cls := cls, id := id, sender := Returned(true))
  {
    ExecFour(s, REST);
  }

  lemma VerifiedLength(msg: seq<byte>)
    requires Verifies(msg)
    ensures |msg| >= 8
  {
  }

  lemma ExecTwo(s: State, a: Action, b: Action)
    ensures Exec(s, [a, b]) == Next(Next(s, a), b)
  {
    hide Next;
    assert [a, b][1..] == [b];
    ExecOne(Next(s, a), b);
  }

  lemma ExecFour(s: State, acts: seq<Action>)
    requires |acts| == 4
    ensures Exec(s, acts) == Next(Next(Next(Next(s, acts[0]), acts[1]), acts[2]), acts[3])
  {
    hide Next;
    assert acts == [acts[0], acts[1]] + [acts[2], acts[3]];
    ExecConcat(s, [acts[0], acts[1]], [acts[2], acts[3]]);
    ExecTwo(s, acts[0], acts[1]);
    ExecTwo(Exec(s, [acts[0], acts[1]]), acts[2], acts[3]);
  }

  // ----- Acknowledgements on their own -------------------------------------

  function Acks(steps: seq<AckStep>): (acts: seq<Action>)
    ensures |acts| == |steps|
  {
    if steps == [] then [] else [Ack(steps[0])] + Acks(steps[1..])
  }

  predicate NoPositive(steps: seq<AckStep>) {
    forall st :: st in steps && st.Handle? ==> !st.isAck
  }

  lemma {:induction false} AcksKeepSender(s: State, steps: seq<AckStep>)
    ensures Exec(s, Acks(steps)).sender == s.sender
    ensures Exec(s, Acks(steps)).cls == s.cls && Exec(s, Acks(steps)).id == s.id
    decreases |steps|
  {
    if steps == [] {
    } else {
      hide AckNext;
      AckKeepsSender(s, steps[0]);
      assert Acks(steps)[1..] == Acks(steps[1..]);
      AcksKeepSender(AckNext(s, steps[0]), steps[1..]);
    }
  }

  lemma AckKeepsSender(s: State, step: AckStep)
    ensures AckNext(s, step).sender == s.sender && AckNext(s, step).cls == s.cls && AckNext(s, step).id == s.id
  {
  }

  // With no call in progress and none beginning, acknowledgements do nothing.
  lemma {:induction false} QuietAcks(s: State, steps: seq<AckStep>)
    requires s.handler == NoAck && NoPositive(steps)
    ensures Exec(s, Acks(steps)) == s
    decreases |steps|
  {
    if steps == [] {
    } else {
      assert Acks(steps)[1..] == Acks(steps[1..]);
      assert steps[0] in steps;
      assert AckNext(s, steps[0]) == s;
      QuietAcks(s, steps[1..]);
    }
  }

  predicate NotEarly(s: State) {
    !Storing(s.sender) && (s.handler != NoAck ==> !s.handler.early) && (forall h :: h in s.hits ==> !h.early)
  }

  lemma {:induction false} LateAcks(s: State, steps: seq<AckStep>)
    requires NotEarly(s)
    ensures NotEarly(Exec(s, Acks(steps)))
    decreases |steps|
  {
    if steps == [] {
    } else {
      assert Acks(steps)[1..] == Acks(steps[1..]);
      assert NotEarly(AckNext(s, steps[0]));
      LateAcks(AckNext(s, steps[0]), steps[1..]);
    }
  }

  lemma EnterKeeps(s: State, msg: seq<byte>)
    requires Invariant(s) && (s.sender == Outside || s.sender.Returned?)
    ensures Invariant(s.(sender := Returned(false)))
    ensures Verifies(msg) ==> |msg| >= 8 && Invariant(s.(sender := Called(msg[2], msg[3])))
  {
  }

  lemma AcksStep(s: State, steps: seq<AckStep>)
    requires steps != []
    ensures Exec(s, Acks(steps)) == Exec(AckNext(s, steps[0]), Acks(steps[1..]))
  {
    hide AckNext;
    assert Acks(steps)[1..] == Acks(steps[1..]);
  }

  lemma MeanwhileFacts(s: State, steps: seq<AckStep>)
    ensures Invariant(s) ==> Invariant(Exec(s, Acks(steps)))
    ensures NotEarly(s) ==> NotEarly(Exec(s, Acks(steps)))
    ensures s.handler == NoAck && NoPositive(steps) ==> Exec(s, Acks(steps)) == s
    ensures Exec(s, Acks(steps)).sender == s.sender
    ensures Exec(s, Acks(steps)).cls == s.cls && Exec(s, Acks(steps)).id == s.id
  {
    hide Exec, Acks, Invariant, NotEarly, NoPositive;
    if Invariant(s) {
      Reachable(s, Acks(steps));
    }
    if NotEarly(s) {
      LateAcks(s, steps);
    }
    if s.handler == NoAck && NoPositive(steps) {
      QuietAcks(s, steps);
    }
    AcksKeepSender(s, steps);
  }

  lemma AcksFour(steps: seq<AckStep>)
    requires |steps| == 4
    ensures Acks(steps) == [Ack(steps[0]), Ack(steps[1]), Ack(steps[2]), Ack(steps[3])]
  {
    assert Acks(steps[1..]) == [Ack(steps[1])] + Acks(steps[2..]);
    assert Acks(steps[2..]) == [Ack(steps[2])] + Acks(steps[3..]);
    assert Acks(steps[3..]) == [Ack(steps[3])];
  }

  // ----- The steps of one call ---------------------------------------------

  // From the reset to the second store, with what the parser thread does between.
  function StoreScript(gap1: seq<AckStep>, gap2: seq<AckStep>): seq<Action> {
    [Reset] + Acks(gap1) + [StoreClass] + Acks(gap2) + [StoreId]
  }

  function WipeScript(gap1: seq<AckStep>, gap2: seq<AckStep>): seq<Action> {
    Acks(gap1) + [WipeClass] + Acks(gap2) + [WipeId]
  }

  // Whether the call wakes or gives up is decided by the toggle: of the two
  // steps one is possible.
  function WaitScript(ok: bool, gaps: seq<seq<AckStep>>): seq<Action>
    requires |gaps| == 3
  {
    Acks(gaps[0]) + [Wake, GiveUp] + if ok then [] else WipeScript(gaps[1], gaps[2])
  }

  function SendScript(sendOk: bool, ok: bool, gaps: seq<seq<AckStep>>): seq<Action>
    requires |gaps| == 4
  {
    Acks(gaps[0]) + [Send(sendOk)] + if sendOk then WaitScript(ok, gaps[1..]) else []
  }

  function CallScript(msg: seq<byte>, sendOk: bool, ok: bool, gaps: seq<seq<AckStep>>): seq<Action>
    requires |gaps| == 7
  {
    if !Verifies(msg) then [Call(msg)]
    else [Call(msg)] + Acks(gaps[0]) + StoreScript(gaps[1], gaps[2]) + SendScript(sendOk, ok, gaps[3..])
  }

  // Runs put together.
  lemma ExecThreeParts(s: State, a: seq<Action>, b: seq<Action>, c: seq<Action>)
    ensures Exec(s, a + b + c) == Exec(Exec(Exec(s, a), b), c)
  {
    ExecConcat(s, a, b);
    ExecConcat(s, a + b, c);
  }

  lemma ExecFourParts(s: State, a: seq<Action>, b: seq<Action>, c: seq<Action>, d: seq<Action>)
    ensures Exec(s, a + b + c + d) == Exec(Exec(Exec(Exec(s, a), b), c), d)
  {
    ExecThreeParts(s, a, b, c);
    ExecConcat(s, a + b + c, d);
  }

  lemma ExecFiveParts(s: State, a: seq<Action>, b: seq<Action>, c: seq<Action>, d: seq<Action>, e: seq<Action>)
    ensures Exec(s, a + b + c + d + e) == Exec(Exec(Exec(Exec(Exec(s, a), b), c), d), e)
  {
    ExecFourParts(s, a, b, c, d);
    ExecConcat(s, a + b + c + d, e);
  }

  lemma ExecNone(s: State)
    ensures Exec(s, []) == s
  {
  }

  lemma CallEnters(s: State, msg: seq<byte>)
    requires s.sender == Outside || s.sender.Returned?
    ensures Exec(s, [Call(msg)]) == Enter(s, Call(msg))
  {
    ExecOne(s, Call(msg));
  }

  lemma WakeOrGiveUp(s: State)
    requires s.sender.Waiting?
    ensures Exec(s, [Wake, GiveUp]) == s.(sender := if s.toggle then Returned(true) else TimedOut)
  {
    ExecTwo(s, Wake, GiveUp);
  }

  // ----- The transport object ----------------------------------------------

  // `gaps` scripts the parser thread: what it does before each sender step.
  class SerialTransport {
    var ackToggle: bool
    var lastSentClassId: byte
    var lastSentMsgId: byte
    var sender: Sender        // where the sending thread is
    var handler: Handler      // where the parser thread is
    ghost var hits: seq<Hit>

    ghost function Model(): State
      reads this
    {
      State(ackToggle, lastSentClassId, lastSentMsgId, sender, handler, hits)
    }

    constructor ()
      ensures Model() == INITIAL
    {
      ackToggle, lastSentClassId, lastSentMsgId := false, NO_ID, NO_ID;
      sender, handler, hits := Outside, NoAck, [];
    }

    // handle_ack, when nothing interrupts it.
    method HandleAck(msgClass: byte, msgId: byte, isAck: bool)
      requires handler == NoAck
      modifies this
      ensures Model() == Exec(old(Model()), Acks([Handle(msgClass, msgId, isAck), CompareClass, CompareId, SetToggle]))
      ensures ackToggle == (old(ackToggle) || (isAck && msgClass == lastSentClassId && msgId == lastSentMsgId))
      ensures (lastSentClassId, lastSentMsgId, sender) == old((lastSentClassId, lastSentMsgId, sender))
    {
      ghost var s := Model();
      ghost var steps := [Handle(msgClass, msgId, isAck), CompareClass, CompareId, SetToggle];
      AcksFour(steps);
      ExecFour(s, Acks(steps));
      if isAck && msgClass == lastSentClassId && msgId == lastSentMsgId {
        ackToggle := true;
        hits := hits + [Hit(msgClass, msgId, Storing(sender))];
      }
    }

    // One step of handle_ack on the parser thread.
    method AckOne(step: AckStep)
      modifies this`ackToggle, this`handler, this`hits
      ensures Model() == AckNext(old(Model()), step)
    {
      match handler
      case NoAck =>
        if step.Handle? && step.isAck {
          handler := Began(step.cls, step.id, Storing(sender));
        }
      case Began(c, i, early) =>
        if step.CompareClass? {
          handler := if c == lastSentClassId then ClassEqual(c, i, early) else NoAck;
        }
      case ClassEqual(c, i, early) =>
        if step.CompareId? {
          handler := if i == lastSentMsgId then BothEqual(c, i, early) else NoAck;
        }
      case BothEqual(c, i, early) =>
        if step.SetToggle? {
          ackToggle, handler, hits := true, NoAck, hits + [Hit(c, i, early)];
        }
    }

    // What the parser thread does between two steps of the sender.
    method Meanwhile(steps: seq<AckStep>)
      modifies this`ackToggle, this`handler, this`hits
      ensures Model() == Exec(old(Model()), Acks(steps))
      ensures Invariant(old(Model())) ==> Invariant(Model())
      ensures NotEarly(old(Model())) ==> NotEarly(Model())
      ensures old(handler) == NoAck && NoPositive(steps) ==> Model() == old(Model())
    {
      ghost var s := Model();
      MeanwhileFacts(s, steps);
      hide AckNext, Invariant, NotEarly, NoPositive;
      var i := 0;
      while i < |steps|
        invariant 0 <= i <= |steps|
        invariant Exec(Model(), Acks(steps[i..])) == Exec(s, Acks(steps))
      {
        AcksStep(Model(), steps[i..]);
        assert steps[i..][1..] == steps[i + 1..];
        AckOne(steps[i]);
        i := i + 1;
      }
    }

    // send_sync
    method SendSync(msg: seq<byte>, sendOk: bool, gaps: seq<seq<AckStep>>) returns (ok: bool)
      requires |gaps| == 7 && Invariant(Model()) && (sender == Outside || sender.Returned?)
      modifies this
      ensures Invariant(Model()) && sender == Returned(ok)
      // Exactly these steps have been taken, and they decide the answer.
      ensures Model() == Exec(old(Model()), CallScript(msg, sendOk, ok, gaps))
      ensures !Verifies(msg) ==> !ok && Model() == old(Model()).(sender := sender)
      ensures ok ==> Verifies(msg) && sendOk && hits != []
      ensures ok ==> forall h :: h in hits ==> h.early || (h.cls, h.id) == (msg[2], msg[3])
      // No acknowledgement in progress at the reset or beginning before the
      // stores: then it was this frame that was acknowledged.
      ensures ok && old(handler) == NoAck && NoPositive(gaps[0]) && NoPositive(gaps[1]) && NoPositive(gaps[2]) ==>
                forall h :: h in hits ==> (h.cls, h.id) == (msg[2], msg[3])
      // The pair is forgotten only after a timeout.
      ensures Verifies(msg) && (ok || !sendOk) ==> (lastSentClassId, lastSentMsgId) == (msg[2], msg[3])
      ensures Verifies(msg) && !ok && sendOk ==> (lastSentClassId, lastSentMsgId) == (0xFF, 0xFF)
      ensures ok ==> ackToggle
    {
      var verified := VerifyFrameChecksum(msg);
      ghost var s := Model();
      CallEnters(s, msg);
      EnterKeeps(s, msg);
      hide Verifies, Invariant, NoPositive, Exec;
      if !verified {
        sender := Returned(false);
        return false;
      }
      sender := Called(msg[2], msg[3]);
      Meanwhile(gaps[0]);
      ClearAndStore(msg[2], msg[3], gaps[1], gaps[2]);
      ok := SendAndWait(msg[2], msg[3], sendOk, gaps[3..]);
      ExecFourParts(s, [Call(msg)], Acks(gaps[0]), StoreScript(gaps[1], gaps[2]), SendScript(sendOk, ok, gaps[3..]));
    }

    // From the reset to the second store.
    method ClearAndStore(cls: byte, id: byte, gap1: seq<AckStep>, gap2: seq<AckStep>)
      requires sender == Called(cls, id) && Invariant(Model())
      modifies this
      ensures Invariant(Model()) && sender == Stored(cls, id)
      ensures Model() == Exec(old(Model()), StoreScript(gap1, gap2))
      ensures (lastSentClassId, lastSentMsgId) == (cls, id)
      ensures old(handler) == NoAck && NoPositive(gap1) && NoPositive(gap2) ==> NotEarly(Model())
    {
      hide Invariant, NoPositive, Exec;
      ghost var s := Model();
      ResetToggle(cls, id);
      Meanwhile(gap1);
      StoreClassId(cls, id);
      Meanwhile(gap2);
      StoreMsgId(cls, id);
      ExecFiveParts(s, [Reset], Acks(gap1), [StoreClass], Acks(gap2), [StoreId]);
    }

    method ResetToggle(cls: byte, id: byte)
      requires sender == Called(cls, id) && Invariant(Model())
      modifies this
      ensures Invariant(Model()) && Model() == Next(old(Model()), Reset) == Exec(old(Model()), [Reset])
    {
      NextInvariant(Model(), Reset);
      ExecOne(Model(), Reset);
      hide Invariant;
      ackToggle, sender, handler, hits := false, Cleared(cls, id), Overtaken(handler), [];
    }

    method StoreClassId(cls: byte, id: byte)
      requires sender == Cleared(cls, id) && Invariant(Model())
      modifies this`lastSentClassId, this`sender
      ensures Invariant(Model()) && Model() == Next(old(Model()), StoreClass) == Exec(old(Model()), [StoreClass])
    {
      NextInvariant(Model(), StoreClass);
      ExecOne(Model(), StoreClass);
      hide Invariant;
      lastSentClassId, sender := cls, HalfStored(cls, id);
    }

    method StoreMsgId(cls: byte, id: byte)
      requires sender == HalfStored(cls, id) && Invariant(Model())
      modifies this`lastSentMsgId, this`sender
      ensures Invariant(Model()) && Model() == Next(old(Model()), StoreId) == Exec(old(Model()), [StoreId])
      ensures lastSentClassId == cls
    {
      NextInvariant(Model(), StoreId);
      ExecOne(Model(), StoreId);
      assert lastSentClassId == cls;
      hide Invariant;
      lastSentMsgId, sender := id, Stored(cls, id);
    }

    method SendAndWait(cls: byte, id: byte, sendOk: bool, gaps: seq<seq<AckStep>>) returns (ok: bool)
      requires sender == Stored(cls, id) && Invariant(Model()) && |gaps| == 4
      requires (lastSentClassId, lastSentMsgId) == (cls, id)
      modifies this
      ensures Invariant(Model()) && sender == Returned(ok)
      ensures Model() == Exec(old(Model()), SendScript(sendOk, ok, gaps))
      ensures ok ==> sendOk && hits != [] && ackToggle
      ensures ok ==> forall h :: h in hits ==> h.early || (h.cls, h.id) == (cls, id)
      ensures ok && NotEarly(old(Model())) ==> forall h :: h in hits ==> (h.cls, h.id) == (cls, id)
      ensures (lastSentClassId, lastSentMsgId) == if ok || !sendOk then (cls, id) else (NO_ID, NO_ID)
    {
      ghost var s := Model();
      Meanwhile(gaps[0]);
      ExecOne(Model(), Send(sendOk));
      ExecThreeParts(s, Acks(gaps[0]), [Send(sendOk)], []);
      hide Exec;
      if !sendOk {
        ExecNone(Next(Model(), Send(false)));
        sender := Returned(false);
        return false;
      }
      sender := Waiting(cls, id);
      ok := Await(cls, id, gaps[1..]);
      ExecThreeParts(s, Acks(gaps[0]), [Send(true)], WaitScript(ok, gaps[1..]));
    }

    method Await(cls: byte, id: byte, gaps: seq<seq<AckStep>>) returns (ok: bool)
      requires sender == Waiting(cls, id) && Invariant(Model()) && |gaps| == 3
      requires (lastSentClassId, lastSentMsgId) == (cls, id)
      modifies this
      ensures Invariant(Model()) && sender == Returned(ok)
      ensures Model() == Exec(old(Model()), WaitScript(ok, gaps))
      ensures ok ==> hits != [] && ackToggle
      ensures ok ==> forall h :: h in hits ==> h.early || (h.cls, h.id) == (cls, id)
      ensures ok && NotEarly(old(Model())) ==> forall h :: h in hits ==> (h.cls, h.id) == (cls, id)
      ensures (lastSentClassId, lastSentMsgId) == if ok then (cls, id) else (NO_ID, NO_ID)
    {
      ghost var s := Model();
      Meanwhile(gaps[0]);
      WakeOrGiveUp(Model());
      hide Exec;
      if !ackToggle {
        sender := TimedOut;
        Forget(gaps[1], gaps[2]);
        ExecThreeParts(s, Acks(gaps[0]), [Wake, GiveUp], WipeScript(gaps[1], gaps[2]));
        return false;
      }
      ExecThreeParts(s, Acks(gaps[0]), [Wake, GiveUp], []);
      ExecNone(Exec(Exec(s, Acks(gaps[0])), [Wake, GiveUp]));
      sender := Returned(true);
      return true;
    }

    method Forget(gap1: seq<AckStep>, gap2: seq<AckStep>)
      requires sender == TimedOut && Invariant(Model())
      modifies this
      ensures Invariant(Model()) && sender == Returned(false)
      ensures Model() == Exec(old(Model()), WipeScript(gap1, gap2))
      ensures (lastSentClassId, lastSentMsgId) == (NO_ID, NO_ID)
    {
      ghost var s := Model();
      Meanwhile(gap1);
      ExecOne(Model(), WipeClass);
      hide Exec;
      lastSentClassId, sender := NO_ID, HalfWiped;
      Meanwhile(gap2);
      ExecOne(Model(), WipeId);
      lastSentMsgId, sender := NO_ID, Returned(false);
      ExecFourParts(s, Acks(gap1), [WipeClass], Acks(gap2), [WipeId]);
    }
  }
}
