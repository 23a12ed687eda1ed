// The receiver's worker loop over one port.
module Worker {
  import opened Bytes
  import opened FdManager
  import opened Feeding
  import UbxFraming
  import UbxParser

  const MAX_RECONFIGURE_RETRIES := 5
  const READ_CHUNK_BYTES := 2048
  const READ_EVENT := 1

  // What one turn of the loop gets from outside: whether stop() has cleared
  // running_, and the answers of get_fd, poll, available, read and reconfigure.
  datatype Turn = Turn(
    stopped: bool,
    fd: int,
    poll: PollAnswer,
    available: int,
    readFails: bool,
    readable: seq<byte>,
    reconfigureOk: bool,
    fdAfter: int)

  datatype Attempt = NoAttempt | Succeeded | Failed

  // Whether a turn runs into trouble: a bad fd, a poll failure, an error event,
  // or a failed read.  A timeout is no trouble: the source logs a
  // reconfiguration there and performs none.
  predicate Trouble(t: Turn) {
    || t.fd < 0
    || t.poll.PollFails?
    || (var e := AnswerAt(t.poll, 0);
        e.error || (e.readable && t.available > 0 && t.readFails))
  }

  // A reconfiguration counts as a success only if it also yields a valid fd.
  function AttemptOf(t: Turn): Attempt {
    if !Trouble(t) then NoAttempt
    else if t.reconfigureOk && t.fdAfter >= 0 then Succeeded
    else Failed
  }

  function Capped(t: Turn): seq<byte> {
    var cap := if t.available > READ_CHUNK_BYTES then READ_CHUNK_BYTES else if t.available < 0 then 0 else t.available;
    if |t.readable| > cap then t.readable[..cap] else t.readable
  }

  // The bytes a turn hands to the parsers.
  function FedBy(t: Turn): seq<byte> {
    if Trouble(t) || !AnswerAt(t.poll, 0).readable || t.available <= 0 then [] else Capped(t)
  }

  function Fed(turns: seq<Turn>): seq<byte> {
    if turns == [] then [] else Fed(turns[..|turns| - 1]) + FedBy(turns[|turns| - 1])
  }

  // The failures at the end of a history, with no success after them.
  function TrailingFailures(turns: seq<Turn>): nat {
    if turns == [] then 0
    else
      match AttemptOf(turns[|turns| - 1])
      case NoAttempt => TrailingFailures(turns[..|turns| - 1])
      case Succeeded => 0
      case Failed => TrailingFailures(turns[..|turns| - 1]) + 1
  }

  lemma EmptyHistory()
    ensures Fed([]) == [] && TrailingFailures([]) == 0
  {
  }

  lemma HistorySnoc(turns: seq<Turn>, n: nat)
    requires n < |turns|
    ensures Fed(turns[..n + 1]) == Fed(turns[..n]) + FedBy(turns[n])
    ensures TrailingFailures(turns[..n + 1])
         == match AttemptOf(turns[n])
            case NoAttempt => TrailingFailures(turns[..n])
            case Succeeded => 0
            case Failed => TrailingFailures(turns[..n]) + 1
  {
    assert turns[..n + 1][..n] == turns[..n];
  }

  // A turn on which the port could not be brought back, told from the answers
  // alone.
  predicate CannotRecover(t: Turn) {
    && (|| t.fd < 0
        || t.poll.PollFails?
        || AnswerAt(t.poll, 0).error
        || (AnswerAt(t.poll, 0).readable && t.available > 0 && t.readFails))
    && !(t.reconfigureOk && t.fdAfter >= 0)
  }

  predicate FiveFrom(turns: seq<Turn>, m: nat) {
    m + 5 <= |turns| && forall i :: m <= i < m + 5 ==> CannotRecover(turns[i])
  }

  // Such turns in a row are all counted.
  lemma {:induction false} FailuresAddUp(turns: seq<Turn>, from: nat)
    requires from <= |turns| && forall i :: from <= i < |turns| ==> CannotRecover(turns[i])
    ensures TrailingFailures(turns) >= |turns| - from
  {
    if from < |turns| {
      var n := |turns| - 1;
      FailuresAddUp(turns[..n], from);
      assert AttemptOf(turns[n]) == Failed;
    }
  }

  // So five in a row are more than the loop goes through.
  lemma FiveEndTheLoop(turns: seq<Turn>, n: nat, m: nat)
    requires n <= |turns| && FiveFrom(turns, m)
    requires forall i :: 0 <= i < n ==> TrailingFailures(turns[..i]) < MAX_RECONFIGURE_RETRIES
    ensures n <= m + 5 && (n == m + 5 ==> TrailingFailures(turns[..n]) >= MAX_RECONFIGURE_RETRIES)
  {
    FailuresAddUp(turns[..m + 5], m);
    hide CannotRecover, TrailingFailures;
  }

  lemma NeverFive(turns: seq<Turn>, n: nat)
    requires n <= |turns| && forall i :: 0 <= i < n ==> TrailingFailures(turns[..i]) < MAX_RECONFIGURE_RETRIES
    ensures forall m: nat :: FiveFrom(turns, m) ==>
              n <= m + 5 && (n == m + 5 ==> TrailingFailures(turns[..n]) >= MAX_RECONFIGURE_RETRIES)
  {
    hide FiveFrom, TrailingFailures;
    forall m: nat | FiveFrom(turns, m)
      ensures n <= m + 5 && (n == m + 5 ==> TrailingFailures(turns[..n]) >= MAX_RECONFIGURE_RETRIES)
    {
      FiveEndTheLoop(turns, n, m);
    }
  }

  // Being k failures in means there are k failed turns, the last of all, among
  // which no attempt succeeded.
  predicate FailsSince(turns: seq<Turn>, from: nat) {
    from <= |turns| && forall i :: from <= i < |turns| ==> AttemptOf(turns[i]) != Succeeded
  }

  function CountFailures(turns: seq<Turn>): nat {
    if turns == [] then 0
    else CountFailures(turns[..|turns| - 1]) + if CannotRecover(turns[|turns| - 1]) then 1 else 0
  }

  lemma {:induction false} TrailingFailuresMeaning(turns: seq<Turn>) returns (from: nat)
    ensures FailsSince(turns, from) && CountFailures(turns[from..]) == TrailingFailures(turns)
    ensures from == 0 || AttemptOf(turns[from - 1]) == Succeeded
  {
    if turns == [] {
      from := 0;
    } else {
      var n := |turns| - 1;
      if AttemptOf(turns[n]) == Succeeded {
        from := n + 1;
      } else {
        from := TrailingFailuresMeaning(turns[..n]);
        assert turns[from..][..n - from] == turns[..n][from..];
      }
    }
  }

  class Loop {
    const fdm: Manager
    const parser: UbxParser.Parser
    var running: bool
    var currentFd: int
    var dataReady: bool
    var ioError: bool
    var failCount: nat
    // What the parser has been fed since the loop began, and how it was then.
    ghost var fed: seq<byte>
    ghost const startPhase: UbxFraming.Phase
    ghost const startBooks: Books

    ghost predicate ParserValid(thrown: bool)
      reads this, parser, parser.dispatcher.Footprint()
    {
      parser.Valid() && Consumed(parser, startPhase, startBooks, fed, thrown)
    }

    // Exactly the current descriptor is registered, for reading.
    ghost predicate Valid()
      reads this, fdm
    {
      && fdm.Valid()
      && currentFd >= -1
      && fdm.fdMap == if currentFd < 0 then map[] else map[currentFd := FdInfo(READ_EVENT, true)]
    }

    constructor (parser: UbxParser.Parser)
      requires parser.Valid()
      ensures Valid() && ParserValid(false) && running && currentFd == -1 && failCount == 0 && fed == []
      ensures fresh(fdm) && this.parser == parser
      ensures startPhase == parser.View() && startBooks == BooksOf(parser)
    {
      NothingConsumed(parser);
      fdm := new Manager();
      this.parser := parser;
      startPhase, startBooks := parser.View(), BooksOf(parser);
      running, currentFd, failCount, fed := true, -1, 0, [];
      dataReady, ioError := false, false;
    }

    // reconfigure_port: true asks the loop to go on.
    method ReconfigurePort(t: Turn) returns (goOn: bool)
      requires Valid()
      modifies this`currentFd, this`failCount, fdm
      ensures Valid() && currentFd == -1
      ensures failCount == if t.reconfigureOk && t.fdAfter >= 0 then 0 else old(failCount) + 1
      ensures goOn <==> (t.reconfigureOk && t.fdAfter >= 0) || failCount < MAX_RECONFIGURE_RETRIES
    {
      if currentFd >= 0 {
        var removed := fdm.RemoveFd(currentFd);
        currentFd := -1;
        assert fdm.fdMap == map[];
      }
      if t.reconfigureOk && t.fdAfter >= 0 {
        failCount := 0;
        return true;
      }
      failCount := failCount + 1;
      return failCount < MAX_RECONFIGURE_RETRIES;
    }

    // Waits on the registered descriptor and lets the callback set the flags.
    method WaitAndProcess(answer: PollAnswer) returns (ret: int)
      requires Valid() && currentFd >= 0
      modifies this`dataReady, this`ioError, fdm
      ensures Valid()
      ensures ret < 0 <==> answer.PollFails?
      ensures answer.Ready? ==>
                var e := AnswerAt(answer, 0);
                && (ret == 0 <==> !e.Any())
                && ioError == e.error
                && dataReady == (!e.error && e.readable)
    {
      dataReady, ioError := false, false;
      ret := fdm.Wait(answer);
      OneEntry(fdm.pollFds, fdm.pollFdMap, currentFd);
      hide Mirrors, CountReady, Manager.Ready;
      if ret > 0 {
        var calls := fdm.ProcessEvents();
        for i := 0 to |calls|
          invariant ioError == (i > 0 && calls[0].1.error)
          invariant dataReady == (i > 0 && !calls[0].1.error && calls[0].1.readable)
          invariant |calls| <= 1
          modifies this`dataReady, this`ioError
        {
          if calls[i].1.error {
            ioError := true;
          } else if calls[i].1.readable {
            dataReady := true;
          }
        }
      }
    }

    // With one enabled descriptor the cached array has one entry, and at most
    // one callback is made.
    static lemma OneEntry(fds: seq<PollFd>, ids: seq<int>, fd: int)
      requires Mirrors(fds, ids, map[fd := FdInfo(READ_EVENT, true)])
      ensures |fds| == 1 && fds[0].fd == fd
      ensures CountReady(fds) == if fds[0].revents.Any() then 1 else 0
      ensures Manager.Ready(fds) == if fds[0].revents.Any() then [(fd, fds[0].revents)] else []
    {
      var m := map[fd := FdInfo(READ_EVENT, true)];
      assert fd in m && fd in ids;
      assert forall i :: 0 <= i < |ids| ==> ids[i] in m && ids[i] == fd;
      AscendingUnique(ids, [fd]);
      assert fds[1..] == [] && fds[..0] == [];
      assert [] + fds == fds;
    }

    // Replaces the registered descriptor.
    method RegisterFd(fd: int)
      requires Valid() && fd >= 0 && fd != currentFd
      modifies this`currentFd, fdm
      ensures Valid() && currentFd == fd
    {
      if currentFd >= 0 {
        var removed := fdm.RemoveFd(currentFd);
        assert fdm.fdMap == map[];
      }
      var registered := fdm.AddFd(fd, READ_EVENT);
      assert registered;
      currentFd := fd;
    }

    // Hands what was read to the parser, which its record callback may leave by
    // an exception.
    method FeedBuffer(buf: seq<byte>) returns (thrown: bool)
      requires ParserValid(false)
      modifies this`fed, parser, parser.dispatcher.Footprint()
      ensures ParserValid(thrown) && old(fed) <= fed <= old(fed) + buf
      ensures !thrown ==> fed == old(fed) + buf
      ensures parser.dispatcher.recorder == old(parser.dispatcher.recorder)
      ensures parser.maxPayloadLen == old(parser.maxPayloadLen)
      ensures thrown || parser.dispatcher.MayThrow() ==> old(parser.dispatcher.MayThrow())
    {
      hide Consumed, UbxParser.Dispatcher.MayThrow;
      thrown := false;
      if |buf| > 0 {
        ghost var n;
        thrown, n := FeedMore(parser, buf, startPhase, startBooks, fed);
        assert !thrown ==> buf[..n] == buf;
        assert this !in parser.dispatcher.Footprint();
        fed := fed + buf[..n];
      }
    }

    // One turn of the loop body.  Registering a descriptor never fails: the
    // manager holds nothing when one is added.
    method Iterate(t: Turn) returns (exit: bool, thrown: bool)
      requires Valid() && ParserValid(false) && running && !t.stopped
      modifies this, fdm, parser, parser.dispatcher.Footprint()
      ensures Valid() && ParserValid(thrown) && running
      ensures parser.dispatcher.recorder == old(parser.dispatcher.recorder)
      ensures parser.maxPayloadLen == old(parser.maxPayloadLen)
      ensures old(fed) <= fed <= old(fed) + FedBy(t) && (!thrown ==> fed == old(fed) + FedBy(t))
      ensures failCount == match AttemptOf(t)
                           case NoAttempt => old(failCount)
                           case Succeeded => 0
                           case Failed => old(failCount) + 1
      // A bad descriptor, a failed poll, an error event or a failed read.
      ensures t.fd < 0 || t.poll.PollFails? || AnswerAt(t.poll, 0).error
              || (AnswerAt(t.poll, 0).readable && t.available > 0 && t.readFails) ==>
                && currentFd == -1 && !thrown && fed == old(fed)
                && failCount == (if t.reconfigureOk && t.fdAfter >= 0 then 0 else old(failCount) + 1)
                && (exit <==> failCount >= 5)
      // Nothing of the kind.
      ensures t.fd >= 0 && !t.poll.PollFails? && !AnswerAt(t.poll, 0).error
              && !(AnswerAt(t.poll, 0).readable && t.available > 0 && t.readFails) ==>
                && currentFd == t.fd && !exit && failCount == old(failCount)
      ensures !thrown && t.fd >= 0 && !t.poll.PollFails? && !AnswerAt(t.poll, 0).error
              && AnswerAt(t.poll, 0).readable && t.available > 0 && !t.readFails ==>
                var most := if t.available > 2048 then 2048 else t.available;
                fed == old(fed) + if |t.readable| > most then t.readable[..most] else t.readable
      ensures exit <==> AttemptOf(t) == Failed && failCount >= MAX_RECONFIGURE_RETRIES
      ensures AttemptOf(t) == NoAttempt ==> currentFd == t.fd
      ensures AttemptOf(t) != NoAttempt ==> currentFd == -1 && !thrown
      ensures thrown || parser.dispatcher.MayThrow() ==> old(parser.dispatcher.MayThrow())
    {
      hide Consumed, Mirrors, UbxParser.Dispatcher.MayThrow;
      thrown := false;
      if t.fd < 0 {
        var goOn := ReconfigurePort(t);
        return !goOn, false;
      }
      if t.fd != currentFd {
        RegisterFd(t.fd);
      }
      var ret := WaitAndProcess(t.poll);
      if ret == 0 {
        return false, false;
      }
      if ret < 0 {
        var goOn := ReconfigurePort(t);
        return !goOn, false;
      }
      if ioError {
        var goOn := ReconfigurePort(t);
        return !goOn, false;
      }
      if !dataReady {
        return false, false;
      }
      if t.available <= 0 {
        return false, false;
      }
      if t.readFails {
        var goOn := ReconfigurePort(t);
        return !goOn, false;
      }
      thrown := FeedBuffer(Capped(t));
      return false, thrown;
    }

    // The loop over as many turns as are given.  It ends when running_ is found
    // cleared, or on the fifth failure in a row, and then running_ is false and
    // nothing is registered any more; otherwise it is still going.  An exception
    // from the record callback leaves the thread, and with it the process, in
    // the middle of the last turn.
    method Run(turns: seq<Turn>) returns (n: nat, ended: bool, thrown: bool)
      requires Valid() && ParserValid(false) && running && currentFd == -1 && failCount == 0 && fed == []
      modifies this, fdm, parser, parser.dispatcher.Footprint()
      ensures ParserValid(thrown)
      ensures parser.dispatcher.recorder == old(parser.dispatcher.recorder)
      ensures parser.maxPayloadLen == old(parser.maxPayloadLen)
      ensures n <= |turns| && fed <= Fed(turns[..n])
      ensures if thrown then n > 0 && Fed(turns[..n - 1]) <= fed else fed == Fed(turns[..n])
      ensures forall i :: 0 <= i < n ==> !turns[i].stopped
      ensures forall i :: 0 <= i < n ==> TrailingFailures(turns[..i]) < MAX_RECONFIGURE_RETRIES
      ensures ended ==> !running && fdm.fdMap == map[]
      ensures !thrown ==>
                (ended <==> TrailingFailures(turns[..n]) == MAX_RECONFIGURE_RETRIES
                            || (n < |turns| && turns[n].stopped))
      ensures !thrown && !ended ==> n == |turns| && running && Valid()
      // Five turns in a row that cannot recover the port end it.
      ensures forall m: nat :: FiveFrom(turns, m) ==> n <= m + 5 && (n == m + 5 && !thrown ==> ended)
      ensures thrown ==> !ended && !turns[n - 1].stopped && AttemptOf(turns[n - 1]) == NoAttempt
      ensures thrown || parser.dispatcher.MayThrow() ==> old(parser.dispatcher.MayThrow())
    {
      hide Fed, TrailingFailures, AttemptOf, FedBy, FiveFrom, Consumed, UbxParser.Dispatcher.MayThrow;
      n, ended, thrown := 0, false, false;
      assert turns[..0] == [];
      EmptyHistory();
      while n < |turns| && !turns[n].stopped && !ended
        invariant n <= |turns| && Valid() && ParserValid(false) && running && !thrown
        invariant parser.dispatcher.recorder == old(parser.dispatcher.recorder)
        invariant parser.maxPayloadLen == old(parser.maxPayloadLen)
        invariant parser.dispatcher.MayThrow() ==> old(parser.dispatcher.MayThrow())
        invariant fed == Fed(turns[..n])
        invariant failCount == TrailingFailures(turns[..n]) <= MAX_RECONFIGURE_RETRIES
        invariant ended <==> TrailingFailures(turns[..n]) == MAX_RECONFIGURE_RETRIES
        invariant forall i :: 0 <= i < n ==> !turns[i].stopped
        invariant forall i :: 0 <= i < n ==> TrailingFailures(turns[..i]) < MAX_RECONFIGURE_RETRIES
        decreases |turns| - n
      {
        ended, thrown := Iterate(turns[n]);
        HistorySnoc(turns, n);
        n := n + 1;
        if thrown {
          NeverFive(turns, n);
          return;
        }
      }
      NeverFive(turns, n);
      if n == |turns| && !ended {
        return;
      }
      ended := true;
      assert this !in parser.dispatcher.Footprint() && fdm !in parser.dispatcher.Footprint();
      if currentFd >= 0 {
        var removed := fdm.RemoveFd(currentFd);
        assert fdm.fdMap == map[];
      }
      running := false;
    }
  }
}
