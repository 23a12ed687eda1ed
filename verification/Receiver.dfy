// The receiver's lifecycle, with a worker thread that may exit by itself.
//
// Commands on one receiver never overlap (the controller serialises them);
// worker steps interleave with them everywhere.
module Receiver {
  import opened Basics

  datatype Port = Live(index: nat) | ReplayFile(id: nat)

  datatype Config = LiveConfig(index: nat) | ReplayConfig(id: nat)

  // A record callback, named by the record file it captured.
  type Callback = nat

  datatype LifeState = Idle | Initialized | Running

  // The thread object: not joinable, inside worker_loop, or past its last
  // statement and waiting to be joined.
  datatype Worker = NoThread | Looping | Finished

  datatype View = View(
    state: LifeState,
    running: bool,
    worker: Worker,
    hasParser: bool,
    port: Port,
    config: Option<Config>,
    callback: Option<Callback>,       // raw_msg_cb_
    parserCallback: Option<Callback>) // what the current parser was given

  // What every command leaves behind.
  predicate Consistent(r: View) {
    && (r.worker != NoThread <==> r.state == Running)
    && (r.hasParser <==> r.state == Running)
    && (r.running ==> r.state == Running)
    && (r.running <==> r.worker == Looping)
    && (r.state != Idle ==> r.config.Some?)
    && (r.worker == Looping ==> r.parserCallback == r.callback)
  }

  // ----- Commands as the caller sees them ----------------------------------

  function Init(r: View, config: Option<Config>, portOk: bool): (View, bool) {
    if config.None? || !portOk then (r, false)
    else (r.(config := config, state := if r.state == Idle then Initialized else r.state), true)
  }

  function Start(r: View): (View, bool) {
    if r.state != Initialized then (r, false)
    else
      (r.(running := true, worker := Looping, state := Running, hasParser := true, parserCallback := r.callback),
       true)
  }

  function Stop(r: View): View {
    if r.state != Running then r
    else r.(running := false, worker := NoThread, hasParser := false, parserCallback := None, state := Initialized)
  }

  function Terminate(r: View): View {
    Stop(r).(state := Idle)
  }

  function SetPort(r: View, port: Port): View {
    if r.state != Idle then r else r.(port := port)
  }

  function WorkerExit(r: View): View {
    if r.worker == Looping then r.(worker := Finished, running := false) else r
  }

  lemma CommandsKeepConsistency(r: View, config: Option<Config>, portOk: bool, port: Port)
    requires Consistent(r)
    ensures Consistent(Init(r, config, portOk).0) && Consistent(Start(r).0)
    ensures Consistent(Stop(r)) && Consistent(Terminate(r))
    ensures Consistent(SetPort(r, port)) && Consistent(WorkerExit(r))
    ensures Terminate(r).state == Idle && Stop(r).worker == NoThread
  {
  }

  // ----- The same, step by step --------------------------------------------

  // Where the command thread is inside stop() or terminate().
  datatype Control =
    | Free
    | Joining(andTerminate: bool)   // running_ cleared, in join()
    | Clearing(andTerminate: bool)  // joined, about to destroy the parsers
    | Settling(andTerminate: bool)  // about to set the state back
    | Closing                       // second half of terminate()

  datatype Thread = Thread(view: View, control: Control, leaving: bool)

  datatype Action =
    | DoInit(config: Option<Config>, portOk: bool)
    | DoStart
    | StopCall(andTerminate: bool)
    | Join
    | DestroyParser
    | SetInitialized
    | Shutdown
    | DoSetPort(port: Port)
    | DoSetCallback(callback: Option<Callback>)
    | LeaveLoop     // the worker breaks out: running_ was false, or it gave up
    | ClearRunning  // its last statement: running_ := false

  function NewReceiver(port: Port): Thread {
    Thread(View(Idle, false, NoThread, false, port, None, None, None), Free, false)
  }

  predicate Enabled(t: Thread, a: Action) {
    match a
    case DoInit(_, _) => t.control == Free
    case DoStart => t.control == Free
    case StopCall(_) => t.control == Free
    case DoSetPort(_) => t.control == Free
    // The controller stops the receiver before it exchanges the callback.
    case DoSetCallback(_) => t.control == Free && !t.view.running
    case Join => t.control.Joining? && t.view.worker != Looping
    case DestroyParser => t.control.Clearing?
    case SetInitialized => t.control.Settling?
    case Shutdown => t.control.Closing?
    // The worker may also give up while running_ is still true.
    case LeaveLoop => t.view.worker == Looping && !t.leaving
    case ClearRunning => t.view.worker == Looping && t.leaving
  }

  function Next(t: Thread, a: Action): Thread
    requires Enabled(t, a)
  {
    var v := t.view;
    match a
    case DoInit(config, ok) => t.(view := Init(v, config, ok).0)
    case DoStart => t.(view := Start(v).0)
    case StopCall(andTerminate) =>
      if v.state != Running then t.(control := if andTerminate then Closing else Free)
      else t.(view := v.(running := false), control := Joining(andTerminate))
    case Join => t.(view := v.(worker := NoThread), control := Clearing(t.control.andTerminate))
    case DestroyParser =>
      t.(view := v.(hasParser := false, parserCallback := None), control := Settling(t.control.andTerminate))
    case SetInitialized =>
      t.(view := v.(state := Initialized), control := if t.control.andTerminate then Closing else Free)
    case Shutdown => t.(view := if v.state == Initialized then v.(state := Idle) else v, control := Free)
    case DoSetPort(port) => t.(view := SetPort(v, port))
    case DoSetCallback(callback) => t.(view := v.(callback := callback))
    case LeaveLoop => t.(leaving := true)
    case ClearRunning => t.(view := WorkerExit(v).(running := false), leaving := false)
  }

  // Every action list is a schedule; actions that are not enabled do nothing.
  function Exec(t: Thread, acts: seq<Action>): Thread
    decreases |acts|
  {
    if acts == [] then t
    else Exec(if Enabled(t, acts[0]) then Next(t, acts[0]) else t, acts[1..])
  }

  // What holds at every point of every schedule.
  predicate Invariant(t: Thread) {
    var v := t.view;
    && (v.state != Idle ==> v.config.Some?)
    && (v.worker == Looping ==> v.hasParser && v.state == Running)
    && (t.leaving ==> v.worker == Looping)
    && match t.control
       case Free => Consistent(v)
       case Joining(_) => v.state == Running && v.hasParser && v.worker != NoThread && !v.running
       case Clearing(_) => v.state == Running && v.hasParser && v.worker == NoThread && !v.running
       case Settling(_) =>
         v.state == Running && !v.hasParser && v.worker == NoThread && !v.running && v.parserCallback == None
       case Closing => Consistent(v) && v.state != Running
  }

  lemma NextInvariant(t: Thread, a: Action)
    requires Invariant(t) && Enabled(t, a)
    ensures Invariant(Next(t, a))
    // The port changes, and a thread is created, only when none exists.
    ensures Next(t, a).view.port != t.view.port ==> t.view.worker == NoThread
    ensures a.DoStart? && Next(t, a) != t ==> t.view.worker == NoThread
    // The parsers are destroyed, and the port closed, only after the join.
    ensures t.view.hasParser && !Next(t, a).view.hasParser ==> t.view.worker == NoThread
    ensures a.Shutdown? ==> t.view.worker == NoThread
  {
  }

  // Safety over every schedule.
  lemma {:induction false} EverySchedule(port: Port, acts: seq<Action>)
    ensures Invariant(Exec(NewReceiver(port), acts))
  {
    Reachable(NewReceiver(port), acts);
  }

  lemma {:induction false} Reachable(t: Thread, acts: seq<Action>)
    requires Invariant(t)
    ensures Invariant(Exec(t, acts))
    decreases |acts|
  {
    if acts == [] {
    } else {
      if Enabled(t, acts[0]) {
        NextInvariant(t, acts[0]);
      }
      Reachable(if Enabled(t, acts[0]) then Next(t, acts[0]) else t, acts[1..]);
    }
  }

  // ----- stop() and terminate() always finish ------------------------------

  // Steps left until the command returns, worker steps included.
  function Rank(t: Thread): nat {
    match t.control
    case Free => 0
    case Joining(_) => 4 + if t.view.worker != Looping then 0 else if t.leaving then 1 else 2
    case Clearing(_) => 3
    case Settling(_) => 2
    case Closing => 1
  }

  // Inside stop() or terminate() some step can always be taken, and every step
  // anyone takes brings the return nearer; so no schedule delays it forever.
  lemma StopProgress(t: Thread)
    requires Invariant(t) && t.control != Free
    ensures exists a :: Enabled(t, a)
    ensures forall a :: Enabled(t, a) ==> Rank(Next(t, a)) < Rank(t)
  {
    var a := match t.control
      case Joining(_) => if t.view.worker != Looping then Join else if t.leaving then ClearRunning else LeaveLoop
      case Clearing(_) => DestroyParser
      case Settling(_) => SetInitialized
      case Closing => Shutdown
      case Free => DoStart;
    assert Enabled(t, a);
  }

  // What the receiver will look like when the command in progress returns.
  function Outcome(t: Thread): View {
    match t.control
    case Free => t.view
    case Joining(terminate) => if terminate then Terminate(t.view) else Stop(t.view)
    case Clearing(terminate) => if terminate then Terminate(t.view) else Stop(t.view)
    case Settling(terminate) => if terminate then Terminate(t.view) else Stop(t.view)
    case Closing => Terminate(t.view)
  }

  // The command returns with the k-th action: no earlier prefix is free of it.
  predicate ReturnsAt(t: Thread, acts: seq<Action>, k: nat) {
    && k <= |acts|
    && Exec(t, acts[..k]).control == Free
    && forall j :: 0 <= j < k ==> Exec(t, acts[..j]).control != Free
  }

  lemma ExecFirst(t: Thread, acts: seq<Action>, j: nat)
    requires 0 < j <= |acts|
    ensures var u := if Enabled(t, acts[0]) then Next(t, acts[0]) else t;
            Exec(t, acts[..j]) == Exec(u, acts[1..][..j - 1])
  {
    assert acts[..j][1..] == acts[1..][..j - 1];
  }

  lemma {:induction false} OutcomeFixed(t: Thread, acts: seq<Action>) returns (k: nat)
    requires Invariant(t)
    requires Exec(t, acts).control == Free
    ensures ReturnsAt(t, acts, k) && Exec(t, acts[..k]).view == Outcome(t)
    decreases |acts|
  {
    if t.control == Free {
      k := 0;
      assert Exec(t, acts[..0]) == t;
    } else {
      var a := acts[0];
      var u := if Enabled(t, a) then Next(t, a) else t;
      if Enabled(t, a) {
        NextInvariant(t, a);
      }
      assert Outcome(u) == Outcome(t);
      var m := OutcomeFixed(u, acts[1..]);
      k := m + 1;
      hide Next, Enabled, Invariant, Outcome;
      ExecFirst(t, acts, k);
      forall j | 0 <= j < k ensures Exec(t, acts[..j]).control != Free {
        if j == 0 {
          assert acts[..0] == [];
        } else {
          ExecFirst(t, acts, j);
        }
      }
    }
  }

  // However worker steps interleave, the moment stop() or terminate() returns
  // the receiver is what the one-step command says: initialised without a
  // thread, or idle.
  lemma StopAppearsAtomic(t: Thread, andTerminate: bool, acts: seq<Action>)
    requires Invariant(t) && t.control == Free
    requires Exec(Next(t, StopCall(andTerminate)), acts).control == Free
    ensures exists k: nat :: ReturnsAt(Next(t, StopCall(andTerminate)), acts, k)
              && Exec(Next(t, StopCall(andTerminate)), acts[..k]).view
                 == if andTerminate then Terminate(t.view) else Stop(t.view)
  {
    var u := Next(t, StopCall(andTerminate));
    NextInvariant(t, StopCall(andTerminate));
    var k := OutcomeFixed(u, acts);
  }

  // ----- The receiver object -----------------------------------------------

  // For the controller a command is one call; join() has the effect proved above.
  class GnssReceiver {
    var state: LifeState
    var running: bool
    var worker: Worker
    var hasParser: bool
    var port: Port
    var config: Option<Config>
    var callback: Option<Callback>
    var parserCallback: Option<Callback>

    ghost function Model(): View
      reads this
    {
      View(state, running, worker, hasParser, port, config, callback, parserCallback)
    }

    constructor (port: Port)
      ensures Model() == NewReceiver(port).view
    {
      state, running, worker, hasParser := Idle, false, NoThread, false;
      this.port := port;
      config, callback, parserCallback := None, None, None;
    }

    method Initialize(newConfig: Option<Config>, portOk: bool) returns (ok: bool)
      modifies this
      ensures (Model(), ok) == Init(old(Model()), newConfig, portOk)
      ensures ok <==> newConfig.Some? && portOk
      ensures config == (if ok then newConfig else old(config))
      ensures state == (if ok && old(state) == Idle then Initialized else old(state))
      ensures (running, worker, hasParser, port, callback, parserCallback)
           == old((running, worker, hasParser, port, callback, parserCallback))
    {
      if newConfig.None? {
        return false;
      }
      if state != Idle {
        // Already initialised: reconfigure the port.
        if !portOk {
          return false;
        }
        config := newConfig;
        return true;
      }
      if !portOk {
        return false;
      }
      config := newConfig;
      state := Initialized;
      return true;
    }

    method StartWorker() returns (ok: bool)
      modifies this
      ensures (Model(), ok) == Start(old(Model()))
      ensures ok <==> old(state) == Initialized
      ensures ok ==> Model() == View(Running, true, Looping, true, old(port), old(config), old(callback), old(callback))
      ensures !ok ==> Model() == old(Model())
    {
      if state != Initialized {
        return false;
      }
      hasParser := true;
      parserCallback := None;
      if callback.Some? {
        parserCallback := callback;
      }
      running := true;
      worker := Looping;
      state := Running;
      return true;
    }

    method StopWorker()
      modifies this
      ensures Model() == Stop(old(Model()))
      ensures Model() == if old(state) == Running
                         then View(Initialized, false, NoThread, false, old(port), old(config), old(callback), None)
                         else old(Model())
    {
      if state != Running {
        return;
      }
      running := false;
      if worker != NoThread {
        worker := NoThread;
      }
      hasParser, parserCallback := false, None;
      state := Initialized;
    }

    method TerminateReceiver()
      modifies this
      ensures Model() == Terminate(old(Model()))
      ensures state == Idle && (port, config, callback) == old((port, config, callback))
      ensures (running, worker, hasParser, parserCallback)
           == if old(state) == Running then (false, NoThread, false, None)
              else old((running, worker, hasParser, parserCallback))
    {
      StopWorker();
      if state == Initialized {
        state := Idle;
      }
    }

    method SwapPort(p: Port)
      modifies this`port
      ensures Model() == SetPort(old(Model()), p)
      ensures port == if state == Idle then p else old(port)
    {
      if state != Idle {
        return;
      }
      port := p;
    }

    method SetRawMessageCallback(cb: Option<Callback>)
      modifies this`callback
      ensures Model() == old(Model()).(callback := cb)
    {
      callback := cb;
    }

    // The worker may have exited by the time the flag is read.
    method IsRunning(exits: bool) returns (r: bool)
      modifies this`worker, this`running
      ensures Model() == if exits then WorkerExit(old(Model())) else old(Model())
      ensures (worker, running) == if exits && old(worker) == Looping then (Finished, false) else old((worker, running))
      ensures r == running
    {
      if exits && worker == Looping {
        worker, running := Finished, false;
      }
      r := running;
    }
  }
}
