// Record and replay switching over all receivers.
module Controller {
  import opened Basics
  import opened Receiver

  type RecordFile = nat

  // The controller's own fields and its receivers' fields, as values.
  datatype State = State(
    receivers: seq<View>,
    recordPorts: seq<Option<RecordFile>>,
    recordActive: bool,
    savedPorts: seq<Option<Port>>,
    savedConfigs: seq<Option<Config>>,
    replayPorts: seq<Option<Port>>,
    replayActive: bool,
    nextFile: nat)

  // Answers from outside: for each receiver, whether the file opens, whether
  // the port initialises, and whether the worker has just exited by itself.
  datatype Oracle = Oracle(opens: nat -> bool, inits: nat -> bool, exits: nat -> bool)

  datatype Command =
    | InitAll | StartAll | StopAll | TerminateAll
    | RecordOn | RecordOff | ReplayOn | ReplayOff
    | WorkerExits(i: nat)

  // ----- What each command means, receiver by receiver ---------------------

  // Exchange a callback, restarting the receiver if it is seen running.
  function Rewire(r: View, exits: bool, cb: Option<Callback>): View {
    var v := if exits then WorkerExit(r) else r;
    if v.running then Start(Stop(v).(callback := cb)).0 else v.(callback := cb)
  }

  predicate Replays(o: Oracle, i: nat) {
    o.opens(i) && o.inits(i)
  }

  // A receiver whose replay file has opened.  When the port then does not
  // initialise, it is left terminated on its own port.
  function Divert(r: View, i: nat, file: Port, config: Config, initOk: bool): View {
    if initOk then Start(Init(Terminate(r).(port := file), Some(config), true).0).0
    else Terminate(r).(port := Live(i))
  }

  // A receiver after start_replay.
  function EnterReplay(r: View, o: Oracle, base: nat, i: nat): View {
    if !o.opens(i) then r else Divert(r, i, ReplayFile(base + i), ReplayConfig(base + i), o.inits(i))
  }

  // A receiver after stop_replay: all are terminated, only those that were
  // replaying are brought back.
  function LeaveReplay(r: View, savedPort: Option<Port>, savedConfig: Option<Config>, initOk: bool): View {
    var t := Terminate(r);
    if savedPort.None? then t
    else
      var u := t.(port := savedPort.value);
      if initOk && savedConfig.Some? then Start(Init(u, savedConfig, true).0).0 else u
  }

  predicate AnyOpens(o: Oracle, n: nat) {
    n > 0 && (o.opens(n - 1) || AnyOpens(o, n - 1))
  }

  predicate AnyReplays(o: Oracle, n: nat) {
    n > 0 && (Replays(o, n - 1) || AnyReplays(o, n - 1))
  }

  lemma {:induction false} NoneOpens(o: Oracle, n: nat, i: nat)
    requires i < n && !AnyOpens(o, n)
    ensures !o.opens(i)
  {
    if i < n - 1 {
      NoneOpens(o, n - 1, i);
    }
  }

  lemma {:induction false} NoneReplays(o: Oracle, n: nat, i: nat)
    requires i < n && !AnyReplays(o, n)
    ensures !Replays(o, i)
  {
    if i < n - 1 {
      NoneReplays(o, n - 1, i);
    }
  }

  lemma {:induction false} AnyOpensIff(o: Oracle, n: nat)
    ensures AnyOpens(o, n) <==> exists i: nat :: i < n && o.opens(i)
  {
    if n > 0 {
      AnyOpensIff(o, n - 1);
    }
  }

  lemma NoneOpenYet(o: Oracle)
    ensures !AnyOpens(o, 0)
  {
  }

  lemma AnyOpensNext(o: Oracle, n: nat)
    ensures AnyOpens(o, n + 1) <==> AnyOpens(o, n) || o.opens(n)
  {
  }

  lemma {:induction false} AnyReplaysIff(o: Oracle, n: nat)
    ensures AnyReplays(o, n) <==> exists i: nat :: i < n && o.opens(i) && o.inits(i)
  {
    if n > 0 {
      AnyReplaysIff(o, n - 1);
    }
  }

  function RecordFiles(o: Oracle, n: nat, base: nat): (q: seq<Option<RecordFile>>)
    ensures |q| == n && forall i :: 0 <= i < n ==> q[i] == if o.opens(i) then Some(base + i) else None
  {
    seq(n, i requires 0 <= i < n => if o.opens(i) then Some(base + i) else None)
  }

  function SavedPorts(o: Oracle, n: nat): (q: seq<Option<Port>>)
    ensures |q| == n && forall i :: 0 <= i < n ==> q[i] == if Replays(o, i) then Some(Live(i)) else None
  {
    seq(n, i requires 0 <= i < n => if Replays(o, i) then Some(Live(i)) else None)
  }

  function SavedConfigs(o: Oracle, n: nat): (q: seq<Option<Config>>)
    ensures |q| == n && forall i :: 0 <= i < n ==> q[i] == if Replays(o, i) then Some(LiveConfig(i)) else None
  {
    seq(n, i requires 0 <= i < n => if Replays(o, i) then Some(LiveConfig(i)) else None)
  }

  function ReplayFiles(o: Oracle, n: nat, base: nat): (q: seq<Option<Port>>)
    ensures |q| == n && forall i :: 0 <= i < n ==> q[i] == if Replays(o, i) then Some(ReplayFile(base + i)) else None
  {
    seq(n, i requires 0 <= i < n => if Replays(o, i) then Some(ReplayFile(base + i)) else None)
  }

  lemma NothingSavedYet(o: Oracle, base: nat)
    ensures SavedPorts(o, 0) == [] && SavedConfigs(o, 0) == [] && ReplayFiles(o, 0, base) == []
  {
  }

  lemma SavedSnoc(o: Oracle, n: nat, base: nat)
    ensures SavedPorts(o, n + 1) == SavedPorts(o, n) + [if Replays(o, n) then Some(Live(n)) else None]
    ensures SavedConfigs(o, n + 1) == SavedConfigs(o, n) + [if Replays(o, n) then Some(LiveConfig(n)) else None]
    ensures ReplayFiles(o, n + 1, base)
         == ReplayFiles(o, n, base) + [if Replays(o, n) then Some(ReplayFile(base + n)) else None]
  {
    hide Replays;
  }

  function Recorded(rs: seq<View>, o: Oracle, base: nat): (q: seq<View>)
    ensures |q| == |rs|
    ensures forall i :: 0 <= i < |rs| ==>
              q[i] == if o.opens(i) then Rewire(rs[i], o.exits(i), Some(base + i)) else rs[i]
  {
    seq(|rs|, i requires 0 <= i < |rs| => if o.opens(i) then Rewire(rs[i], o.exits(i), Some(base + i)) else rs[i])
  }

  function Unrecorded(rs: seq<View>, o: Oracle, n: nat): (q: seq<View>)
    ensures |q| == |rs|
    ensures forall i :: 0 <= i < |rs| ==> q[i] == if i < n then Rewire(rs[i], o.exits(i), None) else rs[i]
  {
    seq(|rs|, i requires 0 <= i < |rs| => if i < n then Rewire(rs[i], o.exits(i), None) else rs[i])
  }

  function Replaying(rs: seq<View>, o: Oracle, base: nat): (q: seq<View>)
    ensures |q| == |rs| && forall i :: 0 <= i < |rs| ==> q[i] == EnterReplay(rs[i], o, base, i)
  {
    seq(|rs|, i requires 0 <= i < |rs| => EnterReplay(rs[i], o, base, i))
  }

  function Restored(rs: seq<View>, ports: seq<Option<Port>>, configs: seq<Option<Config>>, o: Oracle): (q: seq<View>)
    requires |ports| == |configs| == |rs|
    ensures |q| == |rs| && forall i :: 0 <= i < |rs| ==> q[i] == LeaveReplay(rs[i], ports[i], configs[i], o.inits(i))
  {
    seq(|rs|, i requires 0 <= i < |rs| => LeaveReplay(rs[i], ports[i], configs[i], o.inits(i)))
  }

  // The body of the restore loop that start_replay runs when nothing started.
  function BringBack(r: View, savedPort: Option<Port>, savedConfig: Option<Config>, initOk: bool): View {
    if savedPort.None? then r else Start(Init(SetPort(r, savedPort.value), savedConfig, initOk).0).0
  }

  function BroughtBack(rs: seq<View>, ports: seq<Option<Port>>, configs: seq<Option<Config>>, o: Oracle): (q: seq<View>)
    requires |ports| == |configs| == |rs|
    ensures |q| == |rs| && forall i :: 0 <= i < |rs| ==> q[i] == BringBack(rs[i], ports[i], configs[i], o.inits(i))
  {
    seq(|rs|, i requires 0 <= i < |rs| => BringBack(rs[i], ports[i], configs[i], o.inits(i)))
  }

  function Initialised(rs: seq<View>, o: Oracle): (q: seq<View>)
    ensures |q| == |rs| && forall i :: 0 <= i < |rs| ==> q[i] == Init(rs[i], Some(LiveConfig(i)), o.inits(i)).0
  {
    seq(|rs|, i requires 0 <= i < |rs| => Init(rs[i], Some(LiveConfig(i)), o.inits(i)).0)
  }

  function Started(rs: seq<View>): (q: seq<View>)
    ensures |q| == |rs| && forall i :: 0 <= i < |rs| ==> q[i] == Start(rs[i]).0
  {
    seq(|rs|, i requires 0 <= i < |rs| => Start(rs[i]).0)
  }

  function Stopped(rs: seq<View>): (q: seq<View>)
    ensures |q| == |rs| && forall i :: 0 <= i < |rs| ==> q[i] == Stop(rs[i])
  {
    seq(|rs|, i requires 0 <= i < |rs| => Stop(rs[i]))
  }

  function Terminated(rs: seq<View>): (q: seq<View>)
    ensures |q| == |rs| && forall i :: 0 <= i < |rs| ==> q[i] == Terminate(rs[i])
  {
    seq(|rs|, i requires 0 <= i < |rs| => Terminate(rs[i]))
  }

  function RecordStarted(s: State, o: Oracle): (State, bool) {
    var n := |s.receivers|;
    if s.recordActive || s.replayActive then (s, false)
    else if !AnyOpens(o, n) then (s.(recordPorts := [], nextFile := s.nextFile + n), false)
    else
      (s.(receivers := Recorded(s.receivers, o, s.nextFile),
          recordPorts := s.recordPorts + RecordFiles(o, n, s.nextFile),
          recordActive := true,
          nextFile := s.nextFile + n),
       true)
  }

  function RecordStopped(s: State, o: Oracle): (State, bool) {
    if !s.recordActive then (s, false)
    else
      (s.(receivers := Unrecorded(s.receivers, o, |s.recordPorts|), recordPorts := [], recordActive := false), true)
  }

  function ReplayStarted(s: State, o: Oracle): (State, bool) {
    var n := |s.receivers|;
    if s.replayActive || s.recordActive then (s, false)
    else
      var u := s.(receivers := Replaying(s.receivers, o, s.nextFile), nextFile := s.nextFile + n);
      if !AnyReplays(o, n) then (u.(savedPorts := [], savedConfigs := [], replayPorts := []), false)
      else
        (u.(savedPorts := SavedPorts(o, n),
            savedConfigs := SavedConfigs(o, n),
            replayPorts := ReplayFiles(o, n, s.nextFile),
            replayActive := true),
         true)
  }

  function ReplayStopped(s: State, o: Oracle): (State, bool)
    requires s.replayActive ==> |s.savedPorts| == |s.receivers| == |s.savedConfigs|
  {
    if !s.replayActive then (s, false)
    else
      (s.(receivers := Restored(s.receivers, s.savedPorts, s.savedConfigs, o),
          savedPorts := [], savedConfigs := [], replayPorts := [], replayActive := false),
       true)
  }

  // terminate() is StopAll and then TerminateAll: the mutex is free in between.
  function Apply(s: State, c: Command, o: Oracle): State
    requires s.replayActive ==> |s.savedPorts| == |s.receivers| == |s.savedConfigs|
  {
    match c
    case InitAll => s.(receivers := Initialised(s.receivers, o))
    case StartAll => s.(receivers := Started(s.receivers))
    case StopAll => s.(receivers := Stopped(s.receivers))
    case TerminateAll => s.(receivers := Terminated(s.receivers))
    case RecordOn => RecordStarted(s, o).0
    case RecordOff => RecordStopped(s, o).0
    case ReplayOn => ReplayStarted(s, o).0
    case ReplayOff => ReplayStopped(s, o).0
    case WorkerExits(i) =>
      if i < |s.receivers| then s.(receivers := s.receivers[i := WorkerExit(s.receivers[i])]) else s
  }

  // ----- The binding of ports ----------------------------------------------

  predicate Bound(s: State) {
    var n := |s.receivers|;
    && (forall i :: 0 <= i < n ==> Consistent(s.receivers[i]))
    && !(s.recordActive && s.replayActive)
    && |s.recordPorts| == (if s.recordActive then n else 0)
    && |s.savedPorts| == |s.savedConfigs| == |s.replayPorts| == (if s.replayActive then n else 0)
    && (forall i :: 0 <= i < n ==> BoundAt(s, i))
  }

  predicate BoundAt(s: State, i: nat)
    requires i < |s.receivers|
    requires |s.recordPorts| == (if s.recordActive then |s.receivers| else 0)
    requires |s.savedPorts| == |s.savedConfigs| == |s.replayPorts| == (if s.replayActive then |s.receivers| else 0)
  {
    var r := s.receivers[i];
    && r.port == (if s.replayActive && s.replayPorts[i].Some? then s.replayPorts[i].value else Live(i))
    && (s.replayActive ==>
          && s.savedPorts[i] == (if s.replayPorts[i].Some? then Some(Live(i)) else None)
          && s.savedConfigs[i] == (if s.replayPorts[i].Some? then Some(LiveConfig(i)) else None)
          && (s.replayPorts[i].Some? ==> s.replayPorts[i].value.ReplayFile?))
    && r.callback == (if s.recordActive then s.recordPorts[i] else None)
  }

  function PowerOn(n: nat): State {
    State(seq(n, i requires 0 <= i < n => NewReceiver(Live(i)).view), [], false, [], [], [], false, 0)
  }

  lemma PowerOnBound(n: nat)
    ensures Bound(PowerOn(n))
  {
  }

  lemma RewireKeeps(r: View, exits: bool, cb: Option<Callback>)
    requires Consistent(r)
    ensures var v := Rewire(r, exits, cb);
            Consistent(v) && v.port == r.port && v.callback == cb && (v.worker == Looping ==> v.parserCallback == cb)
  {
  }

  lemma StartRecordBound(s: State, o: Oracle)
    requires Bound(s)
    ensures Bound(RecordStarted(s, o).0)
  {
    hide Bound, BoundAt, RecordStarted, Recorded, RecordFiles, AnyOpens;
    RecordStartedShape(s, o);
    if s.recordActive || s.replayActive {
    } else if AnyOpens(o, |s.receivers|) {
      RecordingBound(s, o);
    } else {
      IdleBound(s, s.nextFile + |s.receivers|);
    }
  }

  lemma IdleBound(s: State, nextFile: nat)
    requires Bound(s) && !s.recordActive
    ensures Bound(s.(recordPorts := [], nextFile := nextFile))
  {
    forall i | 0 <= i < |s.receivers| ensures BoundAt(s.(recordPorts := [], nextFile := nextFile), i) {
      assert BoundAt(s, i);
    }
  }

  lemma RecordingBound(s: State, o: Oracle)
    requires Bound(s) && !s.recordActive && !s.replayActive
    ensures var n := |s.receivers|;
            Bound(s.(receivers := Recorded(s.receivers, o, s.nextFile), recordPorts := RecordFiles(o, n, s.nextFile),
                     recordActive := true, nextFile := s.nextFile + n))
  {
    hide Rewire, Consistent;
    var n := |s.receivers|;
    var u := s.(receivers := Recorded(s.receivers, o, s.nextFile), recordPorts := RecordFiles(o, n, s.nextFile),
                recordActive := true, nextFile := s.nextFile + n);
    forall i | 0 <= i < n ensures Consistent(u.receivers[i]) && BoundAt(u, i) {
      assert BoundAt(s, i);
      RewireKeeps(s.receivers[i], o.exits(i), Some(s.nextFile + i));
    }
  }

  lemma StopRecordBound(s: State, o: Oracle)
    requires Bound(s)
    ensures Bound(RecordStopped(s, o).0)
  {
    hide Rewire, Consistent;
    var n, u := |s.receivers|, RecordStopped(s, o).0;
    forall i | 0 <= i < n ensures Consistent(u.receivers[i]) && BoundAt(u, i) {
      assert BoundAt(s, i);
      RewireKeeps(s.receivers[i], o.exits(i), None);
    }
  }

  lemma EnterReplayKeeps(s: State, o: Oracle, i: nat)
    requires Bound(s) && !s.replayActive && !s.recordActive && i < |s.receivers|
    ensures var v := EnterReplay(s.receivers[i], o, s.nextFile, i);
            && Consistent(v) && v.callback == None
            && v.port == (if Replays(o, i) then ReplayFile(s.nextFile + i) else Live(i))
            && (Replays(o, i) ==> v.state == Running && v.config == Some(ReplayConfig(s.nextFile + i)))
            && (o.opens(i) && !o.inits(i) ==> v.state == Idle)
  {
    assert BoundAt(s, i);
  }

  lemma StartReplayBound(s: State, o: Oracle)
    requires Bound(s)
    ensures Bound(ReplayStarted(s, o).0)
  {
    var n, u := |s.receivers|, ReplayStarted(s, o).0;
    hide EnterReplay, Consistent;
    if s.replayActive || s.recordActive {
    } else {
      forall i | 0 <= i < n ensures Consistent(u.receivers[i]) && BoundAt(u, i) {
        EnterReplayKeeps(s, o, i);
        if !AnyReplays(o, n) {
          NoneReplays(o, n, i);
        }
      }
    }
  }

  lemma StopReplayBound(s: State, o: Oracle)
    requires Bound(s)
    ensures Bound(ReplayStopped(s, o).0)
  {
    var n, u := |s.receivers|, ReplayStopped(s, o).0;
    forall i | 0 <= i < n ensures Consistent(u.receivers[i]) && BoundAt(u, i) {
      assert BoundAt(s, i);
    }
  }

  // Commands that leave every port and callback alone.
  lemma SameBinding(s: State, rs: seq<View>)
    requires Bound(s) && |rs| == |s.receivers|
    requires forall i :: 0 <= i < |rs| ==>
               Consistent(rs[i]) && rs[i].port == s.receivers[i].port && rs[i].callback == s.receivers[i].callback
    ensures Bound(s.(receivers := rs))
  {
    hide Consistent;
    forall i | 0 <= i < |rs| ensures BoundAt(s.(receivers := rs), i) {
      assert BoundAt(s, i);
    }
  }

  lemma LifecycleKeeps(r: View, config: Option<Config>, portOk: bool)
    requires Consistent(r)
    ensures Keeps(r, Init(r, config, portOk).0) && Keeps(r, Start(r).0) && Keeps(r, Stop(r))
    ensures Keeps(r, Terminate(r)) && Keeps(r, WorkerExit(r))
  {
    CommandsKeepConsistency(r, config, portOk, r.port);
  }

  predicate Keeps(r: View, v: View) {
    Consistent(v) && v.port == r.port && v.callback == r.callback
  }

  lemma ApplyBound(s: State, c: Command, o: Oracle)
    requires Bound(s)
    ensures Bound(Apply(s, c, o)) && |Apply(s, c, o).receivers| == |s.receivers|
  {
    match c
    case RecordOn => StartRecordBound(s, o);
    case RecordOff => StopRecordBound(s, o);
    case ReplayOn => StartReplayBound(s, o);
    case ReplayOff => StopReplayBound(s, o);
    case _ => LifecycleBound(s, c, o);
  }

  lemma LifecycleBound(s: State, c: Command, o: Oracle)
    requires Bound(s) && !c.RecordOn? && !c.RecordOff? && !c.ReplayOn? && !c.ReplayOff?
    ensures Bound(Apply(s, c, o)) && |Apply(s, c, o).receivers| == |s.receivers|
  {
    hide RecordStarted, RecordStopped, ReplayStarted, ReplayStopped;
    hide Init, Start, Stop, Terminate, WorkerExit, Consistent, BoundAt;
    forall i | 0 <= i < |s.receivers| ensures Keeps(s.receivers[i], Apply(s, c, o).receivers[i]) {
      LifecycleKeeps(s.receivers[i], Some(LiveConfig(i)), o.inits(i));
    }
    SameBinding(s, Apply(s, c, o).receivers);
  }

  // Any run of commands and spontaneous worker exits, with any answers.
  function Run(s: State, steps: seq<(Command, Oracle)>): State
    requires Bound(s)
    decreases |steps|
  {
    if steps == [] then s
    else
      ApplyBound(s, steps[0].0, steps[0].1);
      Run(Apply(s, steps[0].0, steps[0].1), steps[1..])
  }

  // Port binding over all runs and all failures.
  lemma {:induction false} PortBinding(n: nat, steps: seq<(Command, Oracle)>)
    ensures Bound(PowerOn(n))
    ensures Bound(Run(PowerOn(n), steps))
    ensures |Run(PowerOn(n), steps).receivers| == n
  {
    PowerOnBound(n);
    RunBound(PowerOn(n), steps);
  }

  lemma {:induction false} RunBound(s: State, steps: seq<(Command, Oracle)>)
    requires Bound(s)
    ensures Bound(Run(s, steps)) && |Run(s, steps).receivers| == |s.receivers|
    decreases |steps|
  {
    if steps == [] {
    } else {
      ApplyBound(s, steps[0].0, steps[0].1);
      RunBound(Apply(s, steps[0].0, steps[0].1), steps[1..]);
    }
  }

  // While recording, every live worker feeds a parser that reports to the
  // receiver's record file; otherwise to none.
  lemma LiveParsersReport(n: nat, steps: seq<(Command, Oracle)>, i: nat)
    requires i < n
    ensures Bound(PowerOn(n)) && |Run(PowerOn(n), steps).receivers| == n
    ensures var s := Run(PowerOn(n), steps);
            s.receivers[i].worker == Looping ==>
              s.receivers[i].parserCallback == if s.recordActive && i < |s.recordPorts| then s.recordPorts[i] else None
  {
    PortBinding(n, steps);
    assert BoundAt(Run(PowerOn(n), steps), i);
  }

  // A recording that starts and stops leaves a receiver exactly as it was,
  // unless its worker exits meanwhile.
  lemma RecordThenStop(s: State, o: Oracle, p: Oracle, i: nat)
    requires Bound(s) && i < |s.receivers| && RecordStarted(s, o).1 && !o.exits(i) && !p.exits(i)
    ensures var u := RecordStopped(RecordStarted(s, o).0, p).0;
            u.receivers[i] == s.receivers[i] && !u.recordActive && u.recordPorts == []
  {
    hide Rewire, Bound, Consistent, RecordStarted, Recorded, RecordFiles, Unrecorded, AnyOpens;
    RecordStartedShape(s, o);
    BoundMember(s, i);
    RewireUndone(s.receivers[i], s.nextFile + i);
    RecordThenStopAt(s.receivers, o, p, s.nextFile, i);
  }

  lemma RecordThenStopAt(rs: seq<View>, o: Oracle, p: Oracle, base: nat, i: nat)
    requires i < |rs| && !o.exits(i) && !p.exits(i)
    requires Rewire(Rewire(rs[i], false, Some(base + i)), false, None) == Rewire(rs[i], false, None) == rs[i]
    ensures Unrecorded(Recorded(rs, o, base), p, |RecordFiles(o, |rs|, base)|)[i] == rs[i]
  {
    hide Rewire;
  }

  lemma BoundMember(s: State, i: nat)
    requires Bound(s) && i < |s.receivers|
    ensures Consistent(s.receivers[i])
    ensures !s.recordActive ==> s.receivers[i].callback == None
  {
    hide Consistent;
    assert BoundAt(s, i);
  }

  lemma RewireUndone(r: View, file: Callback)
    requires Consistent(r) && r.callback == None
    ensures Rewire(Rewire(r, false, Some(file)), false, None) == r
    ensures Rewire(r, false, None) == r
  {
  }

  // A replay that starts and stops puts the replayed receivers back to work on
  // their own ports, if those initialise, and leaves all others idle.
  lemma ReplayThenStop(s: State, o: Oracle, p: Oracle, i: nat)
    requires Bound(s) && i < |s.receivers| && ReplayStarted(s, o).1
    ensures Bound(ReplayStarted(s, o).0)
    ensures var u := ReplayStopped(ReplayStarted(s, o).0, p).0;
            var r := u.receivers[i];
            if o.opens(i) && o.inits(i) && p.inits(i) then
              r == View(Running, true, Looping, true, Live(i), Some(LiveConfig(i)), None, None)
            else
              r.state == Idle && !r.running && r.worker == NoThread && !r.hasParser && r.port == Live(i)
  {
    StartReplayBound(s, o);
    EnterReplayKeeps(s, o, i);
  }

  // A replay that cannot start does not bring the receivers it has already
  // terminated back: the source's restore loop finds nothing saved.
  lemma FailedReplayLeavesIdle(s: State, o: Oracle, i: nat)
    requires Bound(s) && i < |s.receivers| && !s.recordActive && !s.replayActive && !ReplayStarted(s, o).1
    ensures var v := ReplayStarted(s, o).0.receivers[i];
            && v.port == Live(i)
            && (if o.opens(i) then v == Terminate(s.receivers[i]) else v == s.receivers[i])
            && (v == s.receivers[i] <==> !o.opens(i) || s.receivers[i].state == Idle)
  {
    assert BoundAt(s, i);
    NoneReplays(o, |s.receivers|, i);
    EnterReplayKeeps(s, o, i);
  }

  lemma SweepBound(s: State)
    requires Bound(s)
    ensures Bound(s.(receivers := Started(s.receivers)))
    ensures Bound(s.(receivers := Stopped(s.receivers)))
    ensures Bound(s.(receivers := Terminated(s.receivers)))
  {
    hide Bound, Started, Stopped, Terminated;
    var o := Oracle(i => true, i => true, i => true);
    LifecycleBound(s, StartAll, o);
    LifecycleBound(s, StopAll, o);
    LifecycleBound(s, TerminateAll, o);
  }

  lemma InitAnswer(r: View, config: Config, portOk: bool)
    ensures Init(r, Some(config), portOk).1 == portOk
  {
  }

  lemma NothingRecorded(rs: seq<View>, o: Oracle, base: nat)
    requires !AnyOpens(o, |rs|)
    ensures Recorded(rs, o, base) == rs
  {
    hide Rewire;
    forall k | 0 <= k < |rs| ensures !o.opens(k) {
      NoneOpens(o, |rs|, k);
    }
  }

  // The source's restore loop does nothing: no entry survives a failed replay.
  lemma NothingSaved(rs: seq<View>, o: Oracle)
    requires !AnyReplays(o, |rs|)
    ensures BroughtBack(rs, SavedPorts(o, |rs|), SavedConfigs(o, |rs|), o) == rs
  {
    forall k | 0 <= k < |rs| ensures !Replays(o, k) {
      NoneReplays(o, |rs|, k);
    }
  }

  lemma RecordStartedShape(s: State, o: Oracle)
    requires Bound(s)
    ensures !s.recordActive ==> s.recordPorts == []
    ensures s.recordActive || s.replayActive ==> RecordStarted(s, o) == (s, false)
    ensures !s.recordActive && !s.replayActive && !AnyOpens(o, |s.receivers|) ==>
              RecordStarted(s, o) == (s.(recordPorts := [], nextFile := s.nextFile + |s.receivers|), false)
    ensures !s.recordActive && !s.replayActive && AnyOpens(o, |s.receivers|) ==>
              RecordStarted(s, o) == (s.(receivers := Recorded(s.receivers, o, s.nextFile),
                  recordPorts := RecordFiles(o, |s.receivers|, s.nextFile),
                  recordActive := true,
                  nextFile := s.nextFile + |s.receivers|),
               true)
  {
    hide Recorded, RecordFiles, BoundAt, AnyOpens;
    assert [] + RecordFiles(o, |s.receivers|, s.nextFile) == RecordFiles(o, |s.receivers|, s.nextFile);
  }

  lemma ReplayStartedShape(s: State, o: Oracle)
    ensures s.replayActive || s.recordActive ==> ReplayStarted(s, o) == (s, false)
    ensures !s.replayActive && !s.recordActive && !AnyReplays(o, |s.receivers|) ==>
              ReplayStarted(s, o) == (s.(receivers := Replaying(s.receivers, o, s.nextFile),
                  savedPorts := [], savedConfigs := [], replayPorts := [],
                  nextFile := s.nextFile + |s.receivers|),
               false)
    ensures !s.replayActive && !s.recordActive && AnyReplays(o, |s.receivers|) ==>
              ReplayStarted(s, o) == (s.(receivers := Replaying(s.receivers, o, s.nextFile),
                  savedPorts := SavedPorts(o, |s.receivers|),
                  savedConfigs := SavedConfigs(o, |s.receivers|),
                  replayPorts := ReplayFiles(o, |s.receivers|, s.nextFile),
                  replayActive := true,
                  nextFile := s.nextFile + |s.receivers|),
               true)
  {
    hide Replaying, SavedPorts, SavedConfigs, ReplayFiles, AnyReplays;
  }

  lemma BoundLengths(s: State)
    requires Bound(s)
    ensures |s.recordPorts| == (if s.recordActive then |s.receivers| else 0)
    ensures |s.savedPorts| == |s.savedConfigs| == |s.replayPorts| == (if s.replayActive then |s.receivers| else 0)
  {
  }

  // Such a run: one receiver, initialised and started, loses its input to a
  // replay whose file opens and whose port does not initialise.
  lemma StartedThenIdle(good: Oracle, bad: Oracle)
    requires good.inits(0) && bad.opens(0) && !bad.inits(0)
    ensures Bound(PowerOn(1))
    ensures var before := Run(PowerOn(1), [(InitAll, good), (StartAll, good)]);
            |before.receivers| == 1 && before.receivers[0].state == Running
    ensures var after := Run(PowerOn(1), [(InitAll, good), (StartAll, good), (ReplayOn, bad)]);
            |after.receivers| == 1 && after.receivers[0].state == Idle && !after.replayActive
  {
    PowerOnBound(1);
    var s0 := PowerOn(1);
    var s1 := Apply(s0, InitAll, good);
    ApplyBound(s0, InitAll, good);
    var s2 := Apply(s1, StartAll, good);
    ApplyBound(s1, StartAll, good);
    ApplyBound(s2, ReplayOn, bad);
    RunTwo(s0, (InitAll, good), (StartAll, good));
    RunThree(s0, (InitAll, good), (StartAll, good), (ReplayOn, bad));
    assert s2.receivers[0].state == Running;
    assert !AnyReplays(bad, 1);
    hide Bound, Run;
    FailedReplayLeavesIdle(s2, bad, 0);
  }

  lemma RunTwo(s: State, a: (Command, Oracle), b: (Command, Oracle))
    requires Bound(s)
    ensures Bound(Apply(s, a.0, a.1)) && Run(s, [a, b]) == Apply(Apply(s, a.0, a.1), b.0, b.1)
  {
    ApplyBound(s, a.0, a.1);
    ApplyBound(Apply(s, a.0, a.1), b.0, b.1);
    hide Bound, Apply;
    assert [a, b][1..] == [b] && [b][1..] == [];
    var u := Apply(s, a.0, a.1);
    assert Run(u, [b]) == Apply(u, b.0, b.1);
  }

  lemma RunThree(s: State, a: (Command, Oracle), b: (Command, Oracle), c: (Command, Oracle))
    requires Bound(s)
    ensures Bound(Apply(s, a.0, a.1)) && Bound(Apply(Apply(s, a.0, a.1), b.0, b.1))
    ensures Run(s, [a, b, c]) == Apply(Apply(Apply(s, a.0, a.1), b.0, b.1), c.0, c.1)
  {
    ApplyBound(s, a.0, a.1);
    ApplyBound(Apply(s, a.0, a.1), b.0, b.1);
    RunTwo(Apply(s, a.0, a.1), b, c);
    hide Bound, Apply;
    assert [a, b, c][1..] == [b, c];
  }

  // When the two commands succeed, and for which receivers.
  lemma RecordAnswer(s: State, o: Oracle)
    requires Bound(s)
    ensures var (u, ok) := RecordStarted(s, o);
            && (ok <==> !s.recordActive && !s.replayActive && exists i: nat :: i < |s.receivers| && o.opens(i))
            && (ok ==> u.recordActive && |u.recordPorts| == |s.receivers|)
            && (ok ==> forall i :: 0 <= i < |s.receivers| ==> (u.recordPorts[i].Some? <==> o.opens(i)))
  {
    AnyOpensIff(o, |s.receivers|);
    hide AnyOpens, Recorded;
  }

  lemma ReplayAnswer(s: State, o: Oracle)
    requires Bound(s)
    ensures var (u, ok) := ReplayStarted(s, o);
            && (ok <==> !s.recordActive && !s.replayActive
                        && exists i: nat :: i < |s.receivers| && o.opens(i) && o.inits(i))
            && (ok ==> u.replayActive && |u.replayPorts| == |s.receivers|)
            && (ok ==> forall i :: 0 <= i < |s.receivers| ==>
                         (u.replayPorts[i].Some? <==> o.opens(i) && o.inits(i)))
  {
    AnyReplaysIff(o, |s.receivers|);
    hide AnyReplays, Replaying;
  }

  // What a recording that has started has made of each receiver: the callback
  // exchanged, and given to the parser of a running one, and nothing else.
  lemma RecordingIs(s: State, o: Oracle, i: nat)
    requires Bound(s) && i < |s.receivers| && RecordStarted(s, o).1
    ensures var (r, u) := (s.receivers[i], RecordStarted(s, o).0);
            && |u.recordPorts| == |s.receivers|
            && (!o.opens(i) ==> u.receivers[i] == r && u.recordPorts[i] == None)
            && (o.opens(i) && r.running && !o.exits(i) ==>
                  u.receivers[i] == r.(callback := u.recordPorts[i], parserCallback := u.recordPorts[i]))
            && (o.opens(i) && !(r.running && !o.exits(i)) ==>
                  u.receivers[i] == (if o.exits(i) then WorkerExit(r) else r).(callback := u.recordPorts[i]))
  {
    BoundMember(s, i);
    StillBound(s, i);
    hide Bound, BoundAt, AnyOpens;
    RewireIs(s.receivers[i], o.exits(i), Some(s.nextFile + i));
    hide Rewire, Consistent;
  }

  lemma StillBound(s: State, i: nat)
    requires Bound(s) && i < |s.receivers|
    ensures !s.recordActive ==> s.recordPorts == []
  {
  }

  lemma RewireIs(r: View, exits: bool, cb: Option<Callback>)
    requires Consistent(r)
    ensures Rewire(r, exits, cb) == if r.running && !exits then r.(callback := cb, parserCallback := cb)
                                    else (if exits then WorkerExit(r) else r).(callback := cb)
  {
  }

  // And what a replay that has started has made of it: on its file and running,
  // terminated on its own port, or untouched.
  lemma ReplayingIs(s: State, o: Oracle, i: nat)
    requires Bound(s) && i < |s.receivers| && ReplayStarted(s, o).1
    ensures var (u, f) := (ReplayStarted(s, o).0, s.nextFile + i);
            u.receivers[i] == if !o.opens(i) then s.receivers[i]
                              else if !o.inits(i) then Terminate(s.receivers[i])
                              else View(Running, true, Looping, true, ReplayFile(f), Some(ReplayConfig(f)), None, None)
  {
    assert BoundAt(s, i);
    hide Bound, AnyReplays, Consistent;
  }

  lemma BoundConsistent(s: State, k: nat)
    requires Bound(s) && k < |s.receivers|
    ensures s.receivers[k].worker != NoThread ==> s.receivers[k].state == Running
  {
  }

  // ----- The controller object ---------------------------------------------

  class GnssController {
    const receivers: seq<GnssReceiver>
    var recordPorts: seq<Option<RecordFile>>
    var recordActive: bool
    var savedPorts: seq<Option<Port>>
    var savedConfigs: seq<Option<Config>>
    var replayPorts: seq<Option<Port>>
    var replayActive: bool
    var nextFile: nat

    ghost predicate Distinct() {
      forall i, j :: 0 <= i < j < |receivers| ==> receivers[i] != receivers[j]
    }

    ghost function Views(): (v: seq<View>)
      reads receivers
      ensures |v| == |receivers| && forall i :: 0 <= i < |receivers| ==> v[i] == receivers[i].Model()
    {
      seq(|receivers|, i requires 0 <= i < |receivers| reads receivers => receivers[i].Model())
    }

    ghost function Model(): State
      reads this, receivers
    {
      State(Views(), recordPorts, recordActive, savedPorts, savedConfigs, replayPorts, replayActive, nextFile)
    }

    ghost predicate Valid()
      reads this, receivers
    {
      Distinct() && Bound(Model())
    }

    constructor (rs: seq<GnssReceiver>)
      requires forall i, j :: 0 <= i < j < |rs| ==> rs[i] != rs[j]
      requires forall i :: 0 <= i < |rs| ==> rs[i].Model() == NewReceiver(Live(i)).view
      ensures Valid() && receivers == rs && Model() == PowerOn(|rs|)
    {
      receivers := rs;
      recordPorts, recordActive := [], false;
      savedPorts, savedConfigs, replayPorts, replayActive := [], [], [], false;
      nextFile := 0;
      new;
      assert Views() == PowerOn(|rs|).receivers;
      PowerOnBound(|rs|);
    }

    // Every receiver is initialised, whatever became of the others.
    method InitAllReceivers(o: Oracle) returns (allOk: bool)
      requires Valid()
      modifies receivers
      ensures Valid() && Model() == Apply(old(Model()), InitAll, o)
      ensures forall k :: 0 <= k < |receivers| ==>
                var r := receivers[k];
                && r.config == (if o.inits(k) then Some(LiveConfig(k)) else old(r.config))
                && r.state == (if o.inits(k) && old(r.state) == Idle then Initialized else old(r.state))
      ensures allOk <==> forall k :: 0 <= k < |receivers| ==> o.inits(k)
    {
      hide Bound, Initialised;
      ghost var was := Views();
      ApplyBound(Model(), InitAll, o);
      allOk := InitEach(o);
      forall k | 0 <= k < |receivers|
        ensures var r := receivers[k];
                && r.config == (if o.inits(k) then Some(LiveConfig(k)) else was[k].config)
                && r.state == (if o.inits(k) && was[k].state == Idle then Initialized else was[k].state)
      {
        assert Views()[k] == Init(was[k], Some(LiveConfig(k)), o.inits(k)).0;
      }
    }

    method InitEach(o: Oracle) returns (allOk: bool)
      requires Distinct()
      modifies receivers
      ensures Views() == Initialised(old(Views()), o)
      ensures allOk <==> forall k :: 0 <= k < |receivers| ==> o.inits(k)
    {
      hide Init;
      ghost var was := Views();
      allOk := true;
      for i := 0 to |receivers|
        invariant forall k :: 0 <= k < i ==> receivers[k].Model() == Init(was[k], Some(LiveConfig(k)), o.inits(k)).0
        invariant forall k :: i <= k < |receivers| ==> receivers[k].Model() == was[k]
        invariant allOk <==> forall k :: 0 <= k < i ==> o.inits(k)
      {
        var ok := receivers[i].Initialize(Some(LiveConfig(i)), o.inits(i));
        InitAnswer(was[i], LiveConfig(i), o.inits(i));
        if !ok {
          allOk := false;
        }
      }
      assert Views() == Initialised(was, o);
    }

    method StartAllReceivers() returns (allOk: bool)
      requires Valid()
      modifies receivers
      ensures Model() == old(Model()).(receivers := Started(old(Views())))
      ensures Valid()
      ensures forall k :: 0 <= k < |receivers| ==>
                var was := old(receivers[k].state);
                receivers[k].state == if was == Initialized then Running else was
      ensures allOk <==> forall k :: 0 <= k < |receivers| ==> old(receivers[k].state) == Initialized
    {
      hide Bound, Started;
      ghost var was := Views();
      SweepBound(Model());
      allOk := StartEach();
      forall k | 0 <= k < |receivers|
        ensures receivers[k].state == if was[k].state == Initialized then Running else was[k].state
      {
        assert Views()[k] == Start(was[k]).0;
      }
    }

    method StartEach() returns (allOk: bool)
      requires Distinct()
      modifies receivers
      ensures Views() == Started(old(Views()))
      ensures allOk <==> forall k :: 0 <= k < |receivers| ==> old(receivers[k].state) == Initialized
    {
      hide Start;
      ghost var was := Views();
      allOk := true;
      for i := 0 to |receivers|
        invariant forall k :: 0 <= k < i ==> receivers[k].Model() == Start(was[k]).0
        invariant forall k :: i <= k < |receivers| ==> receivers[k].Model() == was[k]
        invariant allOk <==> forall k :: 0 <= k < i ==> was[k].state == Initialized
      {
        var ok := receivers[i].StartWorker();
        if !ok {
          allOk := false;
        }
      }
      assert Views() == Started(was);
    }

    method StopAllReceivers()
      requires Valid()
      modifies receivers
      ensures Valid()
      ensures Model() == old(Model()).(receivers := Stopped(old(Views())))
      ensures forall k :: 0 <= k < |receivers| ==>
                var (was, worker) := old((receivers[k].state, receivers[k].worker));
                && receivers[k].worker == (if was == Running then NoThread else worker)
                && receivers[k].state == (if was == Running then Initialized else was)
    {
      hide Bound, Stopped;
      ghost var was := Views();
      SweepBound(Model());
      StopEach();
      forall k | 0 <= k < |receivers|
        ensures receivers[k].worker == (if was[k].state == Running then NoThread else was[k].worker)
        ensures receivers[k].state == (if was[k].state == Running then Initialized else was[k].state)
      {
        assert Views()[k] == Stop(was[k]);
      }
    }

    method StopEach()
      requires Distinct()
      modifies receivers
      ensures Views() == Stopped(old(Views()))
    {
      hide Stop;
      ghost var was := Views();
      for i := 0 to |receivers|
        invariant forall k :: 0 <= k < i ==> receivers[k].Model() == Stop(was[k])
        invariant forall k :: i <= k < |receivers| ==> receivers[k].Model() == was[k]
      {
        receivers[i].StopWorker();
      }
      assert Views() == Stopped(was);
    }

    // The second half of terminate(), which takes the mutex again.
    method TerminateAllReceivers()
      requires Valid()
      modifies receivers
      ensures Valid()
      ensures Model() == old(Model()).(receivers := Terminated(old(Views())))
      ensures forall k :: 0 <= k < |receivers| ==> receivers[k].state == Idle && receivers[k].worker == NoThread
    {
      hide Bound, Terminated;
      ghost var was := Views();
      SweepBound(Model());
      TerminateEach();
      forall k | 0 <= k < |receivers| ensures receivers[k].state == Idle && receivers[k].worker == NoThread {
        BoundConsistent(old(Model()), k);
        assert Views()[k] == Terminate(was[k]);
      }
    }

    method TerminateEach()
      requires Distinct()
      modifies receivers
      ensures Views() == Terminated(old(Views()))
    {
      hide Terminate;
      ghost var was := Views();
      for i := 0 to |receivers|
        invariant forall k :: 0 <= k < i ==> receivers[k].Model() == Terminate(was[k])
        invariant forall k :: i <= k < |receivers| ==> receivers[k].Model() == was[k]
      {
        receivers[i].TerminateReceiver();
      }
      assert Views() == Terminated(was);
    }

    // stop() and start() around an exchange of the callback.
    method Exchange(r: GnssReceiver, exits: bool, cb: Option<Callback>)
      modifies r
      ensures r.Model() == Rewire(old(r.Model()), exits, cb)
    {
      var wasRunning := r.IsRunning(exits);
      if wasRunning {
        r.StopWorker();
      }
      r.SetRawMessageCallback(cb);
      if wasRunning {
        var ok := r.StartWorker();
      }
    }

    // The loop body of start_record.
    method RecordNext(i: nat, o: Oracle, base: nat) returns (started: bool)
      requires i < |receivers|
      modifies this`recordPorts, receivers[i]
      ensures started == o.opens(i)
      ensures recordPorts == old(recordPorts) + [if started then Some(base + i) else None]
      ensures var r := old(receivers[i].Model());
              receivers[i].Model() == if started then Rewire(r, o.exits(i), Some(base + i)) else r
    {
      hide Rewire;
      started := o.opens(i);
      if !started {
        recordPorts := recordPorts + [None];
        return;
      }
      Exchange(receivers[i], o.exits(i), Some(base + i));
      recordPorts := recordPorts + [Some(base + i)];
    }

    // The loop of start_record: one file and one callback per receiver.
    method RecordEach(o: Oracle, base: nat) returns (anyStarted: bool)
      requires Distinct() && recordPorts == []
      modifies this`recordPorts, receivers
      ensures recordPorts == RecordFiles(o, |receivers|, base)
      ensures Views() == Recorded(old(Views()), o, base)
      ensures anyStarted <==> AnyOpens(o, |receivers|)
    {
      NoneOpenYet(o);
      hide Rewire, RecordFiles, AnyOpens;
      ghost var was := Views();
      var n := |receivers|;
      ghost var ports := RecordFiles(o, n, base);
      anyStarted := false;
      for i := 0 to n
        invariant recordPorts == ports[..i]
        invariant forall k :: 0 <= k < i ==>
                    receivers[k].Model() == if o.opens(k) then Rewire(was[k], o.exits(k), Some(base + k)) else was[k]
        invariant forall k :: i <= k < n ==> receivers[k].Model() == was[k]
        invariant anyStarted <==> AnyOpens(o, i)
        modifies this`recordPorts, receivers
      {
        var started := RecordNext(i, o, base);
        AnyOpensNext(o, i);
        anyStarted := anyStarted || started;
      }
      assert ports[..n] == ports;
      assert Views() == Recorded(was, o, base);
    }

    method StartRecord(o: Oracle) returns (ok: bool)
      requires Valid()
      modifies this, receivers
      ensures Valid()
      ensures (Model(), ok) == RecordStarted(old(Model()), o)
      ensures ok <==> !old(recordActive) && !old(replayActive) && exists i: nat :: i < |receivers| && o.opens(i)
      ensures ok ==> recordActive && |recordPorts| == |receivers|
      ensures ok ==> forall i :: 0 <= i < |receivers| ==> (recordPorts[i].Some? <==> o.opens(i))
    {
      hide Bound, RecordStarted, Recorded, RecordFiles, Distinct, AnyOpens;
      ghost var s := Model();
      RecordAnswer(s, o);
      StartRecordBound(s, o);
      RecordStartedShape(s, o);
      if recordActive {
        return false;
      }
      if replayActive {
        return false;
      }
      var base := nextFile;
      nextFile := nextFile + |receivers|;
      var anyStarted := RecordEach(o, base);
      if !anyStarted {
        recordPorts := [];
        NothingRecorded(s.receivers, o, base);
        return false;
      }
      recordActive := true;
      return true;
    }

    method StopRecord(o: Oracle) returns (ok: bool)
      requires Valid()
      modifies this, receivers
      ensures Valid()
      ensures (Model(), ok) == RecordStopped(old(Model()), o)
      ensures (ok <==> old(recordActive)) && !recordActive && (ok ==> recordPorts == [])
    {
      hide Bound, Unrecorded, Distinct;
      ghost var s := Model();
      StopRecordBound(s, o);
      BoundLengths(s);
      if !recordActive {
        return false;
      }
      var n := if |receivers| < |recordPorts| then |receivers| else |recordPorts|;
      UnrecordEach(n, o);
      recordPorts := [];
      recordActive := false;
      return true;
    }

    // The loop of stop_record.
    method UnrecordEach(n: nat, o: Oracle)
      requires Distinct() && n == |receivers|
      modifies receivers
      ensures Views() == Unrecorded(old(Views()), o, n)
    {
      hide Rewire;
      ghost var was := Views();
      for i := 0 to n
        invariant forall k :: 0 <= k < i ==> receivers[k].Model() == Rewire(was[k], o.exits(k), None)
        invariant forall k :: i <= k < |receivers| ==> receivers[k].Model() == was[k]
      {
        Exchange(receivers[i], o.exits(i), None);
      }
      assert Views() == Unrecorded(was, o, n);
    }

    // One receiver's part of start_replay.
    method ReplayOne(i: nat, file: Port, config: Config, initOk: bool) returns (ok: bool)
      requires i < |receivers|
      modifies receivers[i]
      ensures ok == initOk
      ensures receivers[i].Model() == Divert(old(receivers[i].Model()), i, file, config, initOk)
    {
      var r := receivers[i];
      r.TerminateReceiver();
      r.SwapPort(file);
      ok := r.Initialize(Some(config), initOk);
      if !ok {
        r.SwapPort(Live(i));
        return;
      }
      var started := r.StartWorker();
    }

    // The loop body of start_replay.
    method ReplayNext(i: nat, o: Oracle, base: nat) returns (started: bool)
      requires Distinct() && i < |receivers| && |savedPorts| == |savedConfigs| == |replayPorts| == i
      modifies this`savedPorts, this`savedConfigs, this`replayPorts, receivers[i]
      ensures receivers[i].Model() == EnterReplay(old(receivers[i].Model()), o, base, i)
      ensures started == Replays(o, i)
      ensures savedPorts == old(savedPorts) + [if started then Some(Live(i)) else None]
      ensures savedConfigs == old(savedConfigs) + [if started then Some(LiveConfig(i)) else None]
      ensures replayPorts == old(replayPorts) + [if started then Some(ReplayFile(base + i)) else None]
    {
      hide Divert;
      if !o.opens(i) {
        savedPorts := savedPorts + [None];
        savedConfigs := savedConfigs + [None];
        replayPorts := replayPorts + [None];
        return false;
      }
      savedPorts := savedPorts + [Some(Live(i))];
      savedConfigs := savedConfigs + [Some(LiveConfig(i))];
      started := ReplayOne(i, ReplayFile(base + i), ReplayConfig(base + i), o.inits(i));
      if !started {
        savedPorts := savedPorts[i := None];
        savedConfigs := savedConfigs[i := None];
        replayPorts := replayPorts + [None];
      } else {
        replayPorts := replayPorts + [Some(ReplayFile(base + i))];
      }
    }

    // The loop of start_replay.
    method ReplayEach(o: Oracle, base: nat) returns (anyStarted: bool)
      requires Distinct() && savedPorts == [] && savedConfigs == [] && replayPorts == []
      modifies this`savedPorts, this`savedConfigs, this`replayPorts, receivers
      ensures var n := |receivers|;
              && savedPorts == SavedPorts(o, n) && savedConfigs == SavedConfigs(o, n)
              && replayPorts == ReplayFiles(o, n, base)
      ensures Views() == Replaying(old(Views()), o, base)
      ensures anyStarted <==> AnyReplays(o, |receivers|)
    {
      hide EnterReplay, Replays, SavedPorts, SavedConfigs, ReplayFiles;
      ghost var was := Views();
      var n := |receivers|;
      anyStarted := false;
      NothingSavedYet(o, base);
      for i := 0 to n
        invariant savedPorts == SavedPorts(o, i) && savedConfigs == SavedConfigs(o, i)
        invariant replayPorts == ReplayFiles(o, i, base)
        invariant forall k :: 0 <= k < i ==> receivers[k].Model() == EnterReplay(was[k], o, base, k)
        invariant forall k :: i <= k < n ==> receivers[k].Model() == was[k]
        invariant anyStarted <==> AnyReplays(o, i)
        modifies this`savedPorts, this`savedConfigs, this`replayPorts, receivers
      {
        SavedSnoc(o, i, base);
        var started := ReplayNext(i, o, base);
        if started {
          anyStarted := true;
        }
      }
      assert Views() == Replaying(was, o, base);
    }

    // The loop meant to restore receivers after a failed start_replay.
    method RestoreSaved(o: Oracle)
      requires Distinct() && |savedPorts| == |savedConfigs| == |receivers|
      modifies receivers
      ensures Views() == BroughtBack(old(Views()), savedPorts, savedConfigs, o)
    {
      hide BringBack;
      ghost var was := Views();
      for i := 0 to |receivers|
        invariant forall k :: 0 <= k < i ==>
                    receivers[k].Model() == BringBack(was[k], savedPorts[k], savedConfigs[k], o.inits(k))
        invariant forall k :: i <= k < |receivers| ==> receivers[k].Model() == was[k]
      {
        BringBackOne(i, o.inits(i));
      }
      assert Views() == BroughtBack(was, savedPorts, savedConfigs, o);
    }

    method BringBackOne(i: nat, initOk: bool)
      requires |savedPorts| == |savedConfigs| == |receivers| && i < |receivers|
      modifies receivers[i]
      ensures receivers[i].Model() == BringBack(old(receivers[i].Model()), savedPorts[i], savedConfigs[i], initOk)
    {
      if savedPorts[i].Some? {
        receivers[i].SwapPort(savedPorts[i].value);
        var ok := receivers[i].Initialize(savedConfigs[i], initOk);
        var started := receivers[i].StartWorker();
      }
    }

    // The part of start_replay after the two guards.
    method ReplayAll(o: Oracle) returns (ok: bool)
      requires Distinct()
      modifies this, receivers
      ensures recordPorts == old(recordPorts) && recordActive == old(recordActive)
      ensures Views() == Replaying(old(Views()), o, old(nextFile)) && nextFile == old(nextFile) + |receivers|
      ensures ok == AnyReplays(o, |receivers|) && replayActive == (ok || old(replayActive))
      ensures savedPorts == (if ok then SavedPorts(o, |receivers|) else [])
      ensures savedConfigs == (if ok then SavedConfigs(o, |receivers|) else [])
      ensures replayPorts == (if ok then ReplayFiles(o, |receivers|, old(nextFile)) else [])
    {
      hide Replaying, SavedPorts, SavedConfigs, ReplayFiles, AnyReplays, BroughtBack;
      savedPorts, savedConfigs, replayPorts := [], [], [];
      var base := nextFile;
      nextFile := nextFile + |receivers|;
      ok := ReplayEach(o, base);
      if !ok {
        NothingSaved(Views(), o);
        RestoreSaved(o);
        savedPorts, savedConfigs, replayPorts := [], [], [];
        return;
      }
      replayActive := true;
    }

    method StartReplay(o: Oracle) returns (ok: bool)
      requires Valid()
      modifies this, receivers
      ensures Valid()
      ensures (Model(), ok) == ReplayStarted(old(Model()), o)
      ensures ok <==> !old(recordActive) && !old(replayActive)
                      && exists i: nat :: i < |receivers| && o.opens(i) && o.inits(i)
      ensures ok ==> replayActive && |replayPorts| == |receivers|
      ensures ok ==> forall i :: 0 <= i < |receivers| ==> (replayPorts[i].Some? <==> o.opens(i) && o.inits(i))
    {
      hide Bound, ReplayStarted, Replaying, Distinct, SavedPorts, SavedConfigs, ReplayFiles, AnyReplays;
      ghost var s := Model();
      ReplayAnswer(s, o);
      StartReplayBound(s, o);
      ReplayStartedShape(s, o);
      if replayActive {
        return false;
      }
      if recordActive {
        return false;
      }
      ok := ReplayAll(o);
    }

    // One receiver's part of stop_replay.
    method LeaveOne(i: nat, savedPort: Option<Port>, savedConfig: Option<Config>, initOk: bool)
      requires i < |receivers|
      modifies receivers[i]
      ensures receivers[i].Model() == LeaveReplay(old(receivers[i].Model()), savedPort, savedConfig, initOk)
    {
      var r := receivers[i];
      r.TerminateReceiver();
      if savedPort.Some? {
        r.SwapPort(savedPort.value);
        var ok := r.Initialize(savedConfig, initOk);
        if !ok {
          return;
        }
        var started := r.StartWorker();
      }
    }

    // The loop of stop_replay.
    method LeaveEach(o: Oracle)
      requires Distinct() && |savedPorts| == |savedConfigs| == |receivers|
      modifies receivers
      ensures Views() == Restored(old(Views()), savedPorts, savedConfigs, o)
    {
      hide LeaveReplay;
      ghost var was := Views();
      for i := 0 to |receivers|
        invariant forall k :: 0 <= k < i ==>
                    receivers[k].Model() == LeaveReplay(was[k], savedPorts[k], savedConfigs[k], o.inits(k))
        invariant forall k :: i <= k < |receivers| ==> receivers[k].Model() == was[k]
      {
        LeaveOne(i, savedPorts[i], savedConfigs[i], o.inits(i));
      }
      assert Views() == Restored(was, savedPorts, savedConfigs, o);
    }

    method StopReplay(o: Oracle) returns (ok: bool)
      requires Valid()
      modifies this, receivers
      ensures Valid()
      ensures (Model(), ok) == ReplayStopped(old(Model()), o)
      ensures (ok <==> old(replayActive)) && !replayActive
      ensures ok ==> replayPorts == [] && savedPorts == [] && savedConfigs == []
    {
      hide Bound, Restored, Distinct;
      ghost var s := Model();
      StopReplayBound(s, o);
      BoundLengths(s);
      if !replayActive {
        return false;
      }
      LeaveEach(o);
      replayPorts, savedPorts, savedConfigs := [], [], [];
      replayActive := false;
      return true;
    }
  }
}
