/**
 One call of the bridge's Run (internal/bridge/bridge.go) with its worker goroutines:
 the state_changed events, the `done` channel, the BYE, and how Run returns.

 A run is any sequence of steps. `setState` is two steps, because the event is emitted
 after the lock is released; a BYE or a ping timeout is three: swap the state, emit if
 it changed, then `doneOnce`. Worker loops leave only once the context is cancelled.
 Closing a closed channel panics, which ends the process.
 */
module Lifecycle {
  datatype State = DISCONNECTED | CONNECTING | CONNECTED

  datatype Result = Nil | PeerDisconnected | ConnectionFailed

  datatype Finding = NotChecked | FoundClosed | FoundOpen

  /** Where Run is. */
  datatype Pc =
    | Begin
    | EmitConnecting
    | Shaking                    // WaitForPeer or Connect
    | SwapConnected
    | EmitConnected
    | Select                     // workers running; waits for the context or `done`
    | Check                      // was `done` closed?
    | SendBye
    | CloseDone
    | CloseTransport
    | Wait                       // transport and capture closed; wg.Wait
    | SwapDisconnected
    | EmitDisconnected(changed: bool)
    | Returned(result: Result)
  {
    /** Run has not looked at `done` yet. */
    predicate Undecided() {
      Begin? || EmitConnecting? || Shaking? || SwapConnected? || EmitConnected? || Select? || Check?
    }

    /** The workers have been started. */
    predicate Spawned() {
      Select? || Check? || SendBye? || CloseDone? || CloseTransport? || Wait? || SwapDisconnected? || EmitDisconnected?
    }

    /** Run has closed the transport of a session. */
    predicate Hushed() {
      Wait? || SwapDisconnected? || EmitDisconnected?
    }
  }

  /** recvLoop or pingLoop, and how far it is with ending the session. */
  datatype Worker =
    | Absent
    | Looping                    // about to look at the context
    | Reading                    // recvLoop, in its read: the context was not cancelled
    | Swapping                   // BYE received, or ping timed out
    | Emitting(changed: bool)
    | Closing                    // doneOnce
    | Exited

  datatype Id = CaptureLoop | SendLoop | InjectLoop | StatsLoop | StdinLoop

  /** What setState updates: the state, and the state_changed events in order of emission. */
  datatype View = View(state: State, events: seq<State>)

  /** recvLoop, pingLoop, and the other workers still running. */
  datatype Crew = Crew(recv: Worker, ping: Worker, rest: set<Id>) {
    predicate AllExited() {
      recv.Exited? && ping.Exited? && rest == {}
    }
  }

  /** The `done` channel: closed, closed by the closure of doneOnce, closed by Run, closed twice. */
  datatype Chan = Chan(done: bool, onceFired: bool, runClosed: bool, panicked: bool) {
    function CloseByRun(): Chan {
      Chan(true, onceFired, true, done)
    }

    function CloseByOnce(): Chan {
      if onceFired then this else Chan(true, true, runClosed, done)
    }
  }

  datatype Bridge = Bridge(
    pc: Pc,
    ctx: bool,                   // cancelled
    view: View,
    crew: Crew,
    chan: Chan,
    checked: Finding,            // what the check found
    byes: nat                    // BYE attempts
  )

  const START := Bridge(Begin, false, View(DISCONNECTED, []), Crew(Absent, Absent, {}),
                        Chan(false, false, false, false), NotChecked, 0)

  datatype Step =
    | Cancel                             // the context is cancelled
    | RunStep(ok: bool, stats: bool)     // Run; `ok`: the handshake, `stats`: statsInterval > 0
    | RecvStep(bye: bool)                // recvLoop; `bye`: it reads a BYE, if the transport is open
    | PingStep(timeout: bool)            // pingLoop
    | ExitStep(id: Id)

  // ------------------------------------------------------------------- steps

  function Emit(v: View, s: State): View {
    v.(events := v.events + [s])
  }

  function DoRun(b: Bridge, ok: bool, stats: bool): Bridge {
    match b.pc
    case Begin => b.(pc := EmitConnecting, view := b.view.(state := CONNECTING))
    case EmitConnecting => b.(pc := Shaking, view := Emit(b.view, CONNECTING))
    case Shaking =>
      if ok then b.(pc := SwapConnected)
      else b.(pc := Returned(if b.ctx then Nil else ConnectionFailed))
    case SwapConnected => b.(pc := EmitConnected, view := b.view.(state := CONNECTED))
    case EmitConnected =>
      var rest := {CaptureLoop, SendLoop, InjectLoop, StdinLoop} + (if stats then {StatsLoop} else {});
      b.(pc := Select, view := Emit(b.view, CONNECTED), crew := Crew(Looping, Looping, rest))
    case Select => if b.ctx || b.chan.done then b.(pc := Check) else b
    case Check =>
      if b.chan.done then b.(pc := CloseTransport, checked := FoundClosed) else b.(pc := SendBye, checked := FoundOpen)
    case SendBye => b.(pc := CloseDone, byes := b.byes + 1)
    case CloseDone => b.(pc := CloseTransport, chan := b.chan.CloseByRun())
    case CloseTransport => b.(pc := Wait)
    case Wait => if b.crew.AllExited() then b.(pc := SwapDisconnected) else b
    case SwapDisconnected =>
      b.(pc := EmitDisconnected(b.view.state != DISCONNECTED), view := b.view.(state := DISCONNECTED))
    case EmitDisconnected(changed) =>
      b.(pc := Returned(if b.checked.FoundClosed? then PeerDisconnected else Nil),
         view := if changed then Emit(b.view, DISCONNECTED) else b.view)
    case Returned(_) => b
  }

  /** One step of recvLoop or pingLoop: its new position and its effect. */
  function NextWorker(b: Bridge, w: Worker, ends: bool): Worker {
    match w
    case Looping => if ends then Swapping else if b.ctx then Exited else Looping
    case Swapping => Emitting(b.view.state != DISCONNECTED)
    case Emitting(_) => Closing
    case Closing => Looping
    case _ => w
  }

  /** recvLoop looks at the context before each read; pingLoop selects between the two. */
  function NextRecv(b: Bridge, w: Worker, bye: bool): Worker {
    match w
    case Looping => if b.ctx then Exited else Reading
    case Reading => if bye && !b.pc.Hushed() then Swapping else Looping
    case _ => NextWorker(b, w, false)
  }

  function WorkerView(v: View, w: Worker): View {
    match w
    case Swapping => v.(state := DISCONNECTED)
    case Emitting(changed) => if changed then Emit(v, DISCONNECTED) else v
    case _ => v
  }

  /** What setState(DISCONNECTED) makes of the view when nothing comes between its two parts. */
  function Disconnected(v: View): View {
    WorkerView(WorkerView(v, Swapping), Emitting(v.state != DISCONNECTED))
  }

  function DoWorker(b: Bridge, w: Worker, crew: Crew): Bridge {
    b.(view := WorkerView(b.view, w), chan := if w.Closing? then b.chan.CloseByOnce() else b.chan, crew := crew)
  }

  function Do(b: Bridge, a: Step): Bridge {
    if b.chan.panicked then b
    else
      match a
      case Cancel => b.(ctx := true)
      case RunStep(ok, stats) => DoRun(b, ok, stats)
      case RecvStep(bye) => DoWorker(b, b.crew.recv, b.crew.(recv := NextRecv(b, b.crew.recv, bye)))
      case PingStep(timeout) => DoWorker(b, b.crew.ping, b.crew.(ping := NextWorker(b, b.crew.ping, timeout)))
      case ExitStep(id) => if b.ctx then b.(crew := b.crew.(rest := b.crew.rest - {id})) else b
  }

  function Run(steps: seq<Step>): Bridge {
    if steps == [] then START else Do(Run(steps[..|steps| - 1]), steps[|steps| - 1])
  }

  /** A worker that ends the session with nothing in between: setState, then doneOnce. */
  lemma WorkerEnds(b: Bridge, a: Step)
    requires !b.chan.panicked && ((a.RecvStep? && b.crew.recv.Swapping?) || (a.PingStep? && b.crew.ping.Swapping?))
    ensures Do(Do(Do(b, a), a), a) ==
            b.(view := Disconnected(b.view), chan := b.chan.CloseByOnce(),
               crew := if a.RecvStep? then b.crew.(recv := Looping) else b.crew.(ping := Looping))
  {
  }

  /**
   Run's check of `done`, then, if it is open, the BYE and its own close, then the close of
   the transport, with nothing in between.
   */
  lemma RunChecks(b: Bridge, a: Step)
    requires !b.chan.panicked && a.RunStep? && b.pc.Check?
    ensures b.chan.done ==> Do(Do(b, a), a) == b.(pc := Wait, checked := FoundClosed)
    ensures !b.chan.done ==>
              Do(Do(Do(Do(b, a), a), a), a) ==
              b.(pc := Wait, checked := FoundOpen, byes := b.byes + 1, chan := b.chan.CloseByRun())
  {
  }

  // -------------------------------------------------------------- invariants

  const UP := [CONNECTING, CONNECTED]
  const SESSION_EVENTS := UP + [DISCONNECTED]

  /** How many goroutines have yet to emit the DISCONNECTED event. */
  function Owed(b: Bridge): nat {
    (if b.pc == EmitDisconnected(true) then 1 else 0)
    + (if b.crew.recv == Emitting(true) then 1 else 0)
    + (if b.crew.ping == Emitting(true) then 1 else 0)
  }

  /** Before the workers start, Run is alone; afterwards one goroutine makes the transition. */
  ghost predicate EventsInv(b: Bridge) {
    if b.pc.Spawned() then InSession(b)
    else if b.pc.Returned? && !b.checked.NotChecked? then Ended(b)
    else Alone(b) && Ahead(b)
  }

  ghost predicate Ahead(b: Bridge) {
    && b.view.state == (if b.pc.Begin? then DISCONNECTED else if b.pc.EmitConnected? then CONNECTED else CONNECTING)
    && b.view.events == (if b.pc.Begin? || b.pc.EmitConnecting? then [] else [CONNECTING])
  }

  ghost predicate Ended(b: Bridge) {
    b.view.state == DISCONNECTED && b.view.events == SESSION_EVENTS && b.crew.AllExited()
  }

  ghost predicate Alone(b: Bridge) {
    b.crew.recv.Absent? && b.crew.ping.Absent? && b.crew.rest == {} && b.checked.NotChecked?
  }

  ghost predicate InSession(b: Bridge) {
    && !b.crew.recv.Absent? && !b.crew.ping.Absent?
    && b.view.state != CONNECTING
    && (b.view.state == CONNECTED ==> b.view.events == UP && Owed(b) == 0)
    && (b.view.state == DISCONNECTED ==>
          (b.view.events == UP && Owed(b) == 1) || (b.view.events == SESSION_EVENTS && Owed(b) == 0))
    && (b.pc.SwapDisconnected? || b.pc.EmitDisconnected? ==> b.crew.AllExited())
    && (b.pc.EmitDisconnected? ==> b.view.state == DISCONNECTED)
  }

  /** Who closed `done`, what the check saw, and the BYE. */
  ghost predicate DoneInv(b: Bridge) {
    && b.chan.done == (b.chan.runClosed || b.chan.onceFired)
    && b.chan.panicked == (b.chan.runClosed && b.chan.onceFired)
    && (!b.pc.Undecided() && !b.pc.Returned? ==> !b.checked.NotChecked?)
    && (b.pc.Undecided() ==> b.checked.NotChecked?)
    && (b.checked.FoundClosed? ==> b.chan.onceFired && !b.chan.runClosed && b.byes == 0 && !b.pc.SendBye? && !b.pc.CloseDone?)
    && (b.checked.FoundOpen? ==>
          && b.byes == (if b.pc.SendBye? then 0 else 1)
          && b.chan.runClosed == !(b.pc.SendBye? || b.pc.CloseDone?))
    && (b.checked.NotChecked? ==> !b.chan.runClosed && b.byes == 0)
    && (b.pc.Returned? ==>
          match b.checked
          case NotChecked => b.pc.result == ConnectionFailed || (b.pc.result == Nil && b.ctx)
          case FoundClosed => b.pc.result == PeerDisconnected
          case FoundOpen => b.pc.result == Nil)
  }

  /**
   A worker leaves only after the context is cancelled, and only recvLoop reads. Run's wait
   ends with the context or with `done`, and finding `done` open means the context.
   */
  ghost predicate ExitInv(b: Bridge) {
    && !b.crew.ping.Reading?
    && (b.pc.Check? ==> b.ctx || b.chan.done)
    && (b.checked.FoundOpen? ==> b.ctx)
    && (b.crew.recv.Exited? || b.crew.ping.Exited? ==> b.ctx)
    && (b.pc.SwapDisconnected? || b.pc.EmitDisconnected? || (b.pc.Returned? && !b.checked.NotChecked?) ==> b.ctx)
  }

  lemma RunBeforeSession(b: Bridge, ok: bool, stats: bool)
    requires EventsInv(b) && !b.pc.Spawned()
    ensures EventsInv(DoRun(b, ok, stats))
  {
  }

  lemma RunInSession(b: Bridge, ok: bool, stats: bool)
    requires EventsInv(b) && DoneInv(b) && b.pc.Spawned()
    ensures EventsInv(DoRun(b, ok, stats))
  {
  }

  /** While the workers run, a BYE or timeout is the session's one transition or none. */
  lemma WorkerInSession(b: Bridge, a: Step)
    requires InSession(b) && b.pc.Spawned() && !b.chan.panicked && !a.RunStep?
    ensures InSession(Do(b, a)) && Do(b, a).pc == b.pc
  {
  }

  /** With no workers running, their steps do nothing. */
  lemma EventsOutsideSession(b: Bridge, a: Step)
    requires EventsInv(b) && !b.pc.Spawned() && !a.RunStep?
    ensures EventsInv(Do(b, a))
  {
  }

  lemma DoneStep(b: Bridge, a: Step)
    requires DoneInv(b)
    ensures DoneInv(Do(b, a))
  {
  }

  lemma ExitStepKeeps(b: Bridge, a: Step)
    requires ExitInv(b) && DoneInv(b)
    ensures ExitInv(Do(b, a))
  {
  }

  /** A second close can only happen while Run closes down and waits for its workers. */
  lemma PanicStep(b: Bridge, a: Step)
    requires EventsInv(b) && DoneInv(b) && (b.chan.panicked ==> b.pc.CloseTransport? || b.pc.Wait?)
    ensures Do(b, a).chan.panicked ==> Do(b, a).pc.CloseTransport? || Do(b, a).pc.Wait?
  {
  }

  ghost predicate LifeInv(b: Bridge) {
    EventsInv(b) && DoneInv(b) && ExitInv(b) && (b.chan.panicked ==> b.pc.CloseTransport? || b.pc.Wait?)
  }

  lemma EventsStep(b: Bridge, a: Step)
    requires EventsInv(b) && DoneInv(b)
    ensures EventsInv(Do(b, a))
  {
    if b.chan.panicked {
    } else if a.RunStep? {
      if b.pc.Spawned() {
        RunInSession(b, a.ok, a.stats);
      } else {
        RunBeforeSession(b, a.ok, a.stats);
      }
    } else if b.pc.Spawned() {
      WorkerInSession(b, a);
    } else {
      EventsOutsideSession(b, a);
    }
  }

  lemma StepKeeps(b: Bridge, a: Step)
    requires LifeInv(b)
    ensures LifeInv(Do(b, a))
  {
    EventsStep(b, a);
    DoneStep(b, a);
    ExitStepKeeps(b, a);
    PanicStep(b, a);
  }

  lemma {:induction false} RunKeeps(steps: seq<Step>)
    ensures LifeInv(Run(steps))
  {
    if steps != [] {
      RunKeeps(steps[..|steps| - 1]);
      StepKeeps(Run(steps[..|steps| - 1]), steps[|steps| - 1]);
    }
  }

  // ---------------------------------------------------------------- theorems

  /** However BYE, ping timeout and shutdown interleave, the events are a prefix of one session's. */
  lemma EventsArePrefix(steps: seq<Step>)
    ensures Run(steps).view.events <= SESSION_EVENTS
  {
    RunKeeps(steps);
  }

  /**
   If Run returns after it was connected, the context is cancelled, every worker has
   exited and all three events are out. The result is PeerDisconnected, with no BYE
   attempted, if the check found `done` closed, and nil with one BYE attempt otherwise.
   */
  lemma ReturnAfterConnected(steps: seq<Step>)
    ensures
      var b := Run(steps);
      b.pc.Returned? && !b.checked.NotChecked? ==>
        && b.ctx && b.crew.AllExited() && b.view.events == SESSION_EVENTS
        && (if b.checked.FoundClosed? then b.pc.result == PeerDisconnected && b.byes == 0 && b.chan.onceFired
            else b.pc.result == Nil && b.byes == 1 && !b.chan.onceFired)
  {
    RunKeeps(steps);
  }

  /** If Run returns without having connected, only CONNECTING was announced and no BYE was tried. */
  lemma ReturnBeforeConnected(steps: seq<Step>)
    ensures
      var b := Run(steps);
      b.pc.Returned? && b.checked.NotChecked? ==>
        && b.view.events == [CONNECTING] && b.byes == 0 && b.pc.result != PeerDisconnected
        && (b.pc.result == Nil ==> b.ctx)
  {
    RunKeeps(steps);
  }

  /** Run stays in its wait until it is told to stop, and says BYE only on shutdown. */
  lemma WaitsUntilTold(steps: seq<Step>)
    ensures
      var b := Run(steps);
      && (b.pc.Spawned() && !b.pc.Select? ==> b.ctx || b.chan.done)
      && (b.byes > 0 ==> b.ctx)
  {
    RunKeeps(steps);
  }

  /** The context is cancelled by Cancel and nothing else, for as long as the process lives. */
  lemma {:induction false} CancelledBy(steps: seq<Step>)
    ensures Run(steps).ctx ==> Cancel in steps
    ensures Cancel in steps && !Run(steps).chan.panicked ==> Run(steps).ctx
  {
    if steps != [] {
      CancelledBy(steps[..|steps| - 1]);
    }
  }

  /** A handshake that fails makes Run return nil exactly if the context was cancelled before. */
  lemma FailedHandshake(steps: seq<Step>, a: Step)
    requires !Run(steps).pc.Returned? && Run(steps + [a]).pc.Returned? && Run(steps + [a]).checked.NotChecked?
    ensures Run(steps + [a]).pc.result == if Cancel in steps then Nil else ConnectionFailed
  {
    RunNext(steps, a);
    RunKeeps(steps);
    CancelledBy(steps);
  }

  // --------------------------------------------------------- the other workers

  /** The step that started the workers had a statistics interval. */
  predicate StatsOn(steps: seq<Step>) {
    steps != [] &&
    var init, a := steps[..|steps| - 1], steps[|steps| - 1];
    StatsOn(init) || (a.RunStep? && a.stats && Run(init).pc.EmitConnected?)
  }

  /** statsLoop runs if there is an interval, the others always. */
  predicate Started(steps: seq<Step>, id: Id) {
    id != StatsLoop || StatsOn(steps)
  }

  /** In a session a started worker runs until it exits, which it cannot before the context is cancelled. */
  ghost predicate CrewOk(b: Bridge, id: Id, started: bool, exited: bool) {
    && (b.pc.Undecided() && !b.pc.Spawned() && id == StatsLoop ==> !started)
    && (b.pc.Returned? && b.checked.NotChecked? && id == StatsLoop ==> !started)
    && (b.pc.Spawned() ==>
          && (started && !exited ==> id in b.crew.rest)
          && (!started ==> id !in b.crew.rest)
          && (!b.ctx ==> (id in b.crew.rest <==> started)))
    && (b.pc.Returned? && !b.checked.NotChecked? && started ==> exited)
  }

  lemma CrewStep(b: Bridge, a: Step, id: Id, started: bool, exited: bool)
    requires LifeInv(b) && CrewOk(b, id, started, exited) && (id != StatsLoop ==> started)
    ensures
      var now := started || (a.RunStep? && a.stats && b.pc.EmitConnected?);
      CrewOk(Do(b, a), id, now, exited || a == ExitStep(id))
  {
  }

  lemma {:induction false} CrewStarted(steps: seq<Step>, id: Id)
    ensures CrewOk(Run(steps), id, Started(steps, id), ExitStep(id) in steps)
  {
    hide Do, CrewOk, LifeInv;
    if steps == [] {
      CrewAtStart(id);
    } else {
      var init, a := steps[..|steps| - 1], steps[|steps| - 1];
      CrewStarted(init, id);
      RunKeeps(init);
      CrewStep(Run(init), a, id, Started(init, id), ExitStep(id) in init);
      assert steps == init + [a];
    }
  }

  lemma CrewAtStart(id: Id)
    ensures CrewOk(START, id, id != StatsLoop, false)
  {
  }

  /**
   Run waits for every worker it started: if it returns after it was connected, then
   captureLoop, sendLoop, injectLoop and stdinLoop have each exited, and statsLoop has if
   there is a statistics interval. During the session exactly these are running.
   */
  lemma WaitsForWorkers(steps: seq<Step>, id: Id)
    ensures
      var b := Run(steps);
      && (b.pc.Returned? && !b.checked.NotChecked? && Started(steps, id) ==> ExitStep(id) in steps)
      && (b.pc.Spawned() && !b.ctx ==> (id in b.crew.rest <==> Started(steps, id)))
  {
    CrewStarted(steps, id);
  }

  predicate Calm(w: Worker) {
    w.Absent? || w.Looping? || w.Reading? || w.Exited?
  }

  /** Nobody has begun to end the session. */
  predicate Undisturbed(b: Bridge) {
    !b.chan.onceFired && Calm(b.crew.recv) && Calm(b.crew.ping)
  }

  /** A step in which no BYE arrives and no ping times out. */
  predicate Quiet(a: Step) {
    (a.RecvStep? ==> !a.bye) && (a.PingStep? ==> !a.timeout)
  }

  lemma QuietStep(b: Bridge, a: Step)
    requires Undisturbed(b) && Quiet(a)
    ensures Undisturbed(Do(b, a))
  {
  }

  lemma {:induction false} StaysUndisturbed(steps: seq<Step>)
    requires forall i | 0 <= i < |steps| :: Quiet(steps[i])
    ensures Undisturbed(Run(steps))
  {
    hide Do;
    if steps != [] {
      StaysUndisturbed(steps[..|steps| - 1]);
      QuietStep(Run(steps[..|steps| - 1]), steps[|steps| - 1]);
    }
  }

  /** Without a BYE and without a ping timeout, no interleaving panics. */
  lemma QuietPeerNeverPanics(steps: seq<Step>)
    requires forall i | 0 <= i < |steps| :: Quiet(steps[i])
    ensures !Run(steps).chan.panicked
  {
    StaysUndisturbed(steps);
    RunKeeps(steps);
  }

  lemma RunNext(steps: seq<Step>, a: Step)
    ensures Run(steps + [a]) == Do(Run(steps), a)
  {
  }

  // ------------------------------------------------------- panic and return

  /** recvLoop or pingLoop is between a BYE or timeout and the end of doneOnce. */
  predicate Ending(w: Worker) {
    w.Swapping? || w.Emitting? || w.Closing?
  }

  /** Run has decided to close `done` itself, and a worker has decided to as well. */
  predicate Doomed(b: Bridge) {
    b.checked.FoundOpen? && (b.chan.onceFired || b.chan.panicked || Ending(b.crew.recv) || Ending(b.crew.ping))
  }

  /** Only one of the two closes can still come. */
  predicate Safe(b: Bridge) {
    || b.checked.FoundClosed?
    || b.pc.Returned?
    || (b.checked.NotChecked? && b.chan.onceFired)
    || (!b.chan.onceFired && b.crew.ping.Exited?
        && (b.crew.recv.Exited? || b.crew.recv.Looping? || (b.crew.recv.Reading? && b.pc.Hushed())))
  }

  lemma DoomedStays(b: Bridge, a: Step)
    requires LifeInv(b) && Doomed(b)
    ensures Doomed(Do(b, a)) && !b.pc.Returned?
  {
  }

  lemma SafeStays(b: Bridge, a: Step)
    requires LifeInv(b) && Safe(b)
    ensures Safe(Do(b, a)) && !b.chan.panicked
  {
  }

  lemma {:induction false} DoomedForever(steps: seq<Step>, more: seq<Step>)
    requires Doomed(Run(steps))
    ensures Doomed(Run(steps + more)) && !Run(steps + more).pc.Returned?
    decreases |more|
  {
    hide Do, Doomed;
    RunKeeps(steps);
    DoomedStays(Run(steps), Cancel);
    if more == [] {
      assert steps + more == steps;
    } else {
      RunNext(steps, more[0]);
      DoomedStays(Run(steps), more[0]);
      DoomedForever(steps + [more[0]], more[1..]);
      assert steps + more == steps + [more[0]] + more[1..];
    }
  }

  lemma {:induction false} SafeForever(steps: seq<Step>, more: seq<Step>)
    requires Safe(Run(steps))
    ensures !Run(steps + more).chan.panicked
    decreases |more|
  {
    hide Do, Safe;
    RunKeeps(steps);
    SafeStays(Run(steps), Cancel);
    if more == [] {
      assert steps + more == steps;
    } else {
      RunNext(steps, more[0]);
      SafeStays(Run(steps), more[0]);
      SafeForever(steps + [more[0]], more[1..]);
      assert steps + more == steps + [more[0]] + more[1..];
    }
  }

  /** Run waits with the transport closed, or is past that, and recvLoop has no BYE. */
  predicate Quieted(b: Bridge) {
    && (b.pc.Wait? || b.pc.SwapDisconnected? || b.pc.EmitDisconnected? || b.pc.Returned?)
    && !b.checked.NotChecked? && !Ending(b.crew.recv)
  }

  lemma QuietedStays(b: Bridge, a: Step)
    requires LifeInv(b) && Quieted(b)
    ensures Quieted(Do(b, a))
  {
  }

  /** Once Run waits with the transport closed, a recvLoop that has no BYE never gets one. */
  lemma {:induction false} NoByeAfterClose(steps: seq<Step>, more: seq<Step>)
    requires Quieted(Run(steps))
    ensures Quieted(Run(steps + more))
    decreases |more|
  {
    hide Do, Quieted, LifeInv;
    if more == [] {
      assert steps + more == steps;
    } else {
      var init, a := more[..|more| - 1], more[|more| - 1];
      NoByeAfterClose(steps, init);
      RunKeeps(steps + init);
      RunNext(steps + init, a);
      QuietedStays(Run(steps + init), a);
      assert steps + more == steps + init + [a];
    }
  }

  /** How far Run is from returning. */
  function PcRank(pc: Pc): nat {
    match pc
    case Begin => 13
    case EmitConnecting => 12
    case Shaking => 11
    case SwapConnected => 10
    case EmitConnected => 9
    case Select => 8
    case Check => 7
    case SendBye => 6
    case CloseDone => 5
    case CloseTransport => 4
    case Wait => 3
    case SwapDisconnected => 2
    case EmitDisconnected(_) => 1
    case Returned(_) => 0
  }

  /** How far a worker is from leaving. */
  function LeaveRank(w: Worker): nat {
    match w
    case Swapping => 4
    case Emitting(_) => 3
    case Closing => 2
    case Reading => 2
    case Looping => 1
    case _ => 0
  }

  function CrewRank(c: Crew): nat {
    LeaveRank(c.recv) + LeaveRank(c.ping) + |c.rest|
  }

  predicate Closer(b: Bridge, b': Bridge) {
    || PcRank(b'.pc) < PcRank(b.pc)
    || (b'.pc == b.pc && b'.ctx && !b.ctx)
    || (b'.pc == b.pc && b'.ctx == b.ctx && CrewRank(b'.crew) < CrewRank(b.crew))
  }

  /** Unless it is doomed, the bridge can move closer to Run's return and stay clear of doom. */
  lemma ReturnMove(b: Bridge) returns (a: Step)
    requires LifeInv(b) && !Doomed(b) && !b.pc.Returned?
    ensures !Doomed(Do(b, a)) && Closer(b, Do(b, a))
  {
    if !b.ctx {
      a := Cancel;
    } else if LeaveRank(b.crew.recv) > 0 {
      a := RecvStep(false);
    } else if LeaveRank(b.crew.ping) > 0 {
      a := PingStep(false);
    } else if b.crew.rest != {} {
      var id :| id in b.crew.rest;
      a := ExitStep(id);
    } else {
      a := RunStep(false, false);
    }
  }

  lemma {:induction false} ReturnReachable(steps: seq<Step>) returns (more: seq<Step>)
    requires !Doomed(Run(steps))
    ensures Run(steps + more).pc.Returned?
    decreases PcRank(Run(steps).pc), !Run(steps).ctx, CrewRank(Run(steps).crew)
  {
    hide Do, Doomed, CrewRank;
    RunKeeps(steps);
    if Run(steps).pc.Returned? {
      more := [];
      assert steps + more == steps;
    } else {
      var a := ReturnMove(Run(steps));
      RunNext(steps, a);
      var rest := ReturnReachable(steps + [a]);
      more := [a] + rest;
      assert steps + more == steps + [a] + rest;
    }
  }

  /** How far a worker is from its close of `done`. */
  function CloseRank(w: Worker): nat {
    match w
    case Looping => 4
    case Reading => 4
    case Swapping => 3
    case Emitting(_) => 2
    case Closing => 1
    case _ => 0
  }

  predicate CloserToPanic(b: Bridge, b': Bridge) {
    || b'.chan.panicked
    || PcRank(b'.pc) < PcRank(b.pc)
    || (b'.pc == b.pc && b'.ctx && !b.ctx)
    || (b'.pc == b.pc && b'.ctx == b.ctx
        && CloseRank(b'.crew.recv) + CloseRank(b'.crew.ping) < CloseRank(b.crew.recv) + CloseRank(b.crew.ping))
  }

  /** While both closes can still come, some step brings the second nearer. */
  lemma PanicMove(b: Bridge) returns (a: Step)
    requires LifeInv(b) && !Safe(b) && !b.chan.panicked
    ensures (Do(b, a).chan.panicked || !Safe(Do(b, a))) && CloserToPanic(b, Do(b, a))
  {
    if !b.ctx {
      a := Cancel;
    } else if !b.pc.CloseTransport? && !b.pc.Wait? {
      a := RunStep(true, false);
    } else if Ending(b.crew.recv) || (b.crew.recv.Reading? && b.pc.CloseTransport?) {
      a := RecvStep(true);
    } else {
      a := PingStep(true);
    }
  }

  lemma {:induction false} PanicReachable(steps: seq<Step>) returns (more: seq<Step>)
    requires !Safe(Run(steps))
    ensures Run(steps + more).chan.panicked
    decreases PcRank(Run(steps).pc), !Run(steps).ctx,
              CloseRank(Run(steps).crew.recv) + CloseRank(Run(steps).crew.ping)
  {
    hide Do, Safe;
    RunKeeps(steps);
    if Run(steps).chan.panicked {
      more := [];
      assert steps + more == steps;
    } else {
      var a := PanicMove(Run(steps));
      RunNext(steps, a);
      if Run(steps + [a]).chan.panicked {
        more := [a];
      } else {
        var rest := PanicReachable(steps + [a]);
        more := [a] + rest;
        assert steps + more == steps + [a] + rest;
      }
    }
  }

  /**
   `done` is meant to be closed once; a second close panics. From any reachable state,
   Run can still return if and only if the state is not `Doomed`, and the panic can still
   happen if and only if the state is not `Safe`. When a BYE arrives and when a ping times
   out is left to the run.
   */
  lemma PanicExactly(steps: seq<Step>)
    ensures (exists more: seq<Step> :: Run(steps + more).pc.Returned?) <==> !Doomed(Run(steps))
    ensures (exists more: seq<Step> :: Run(steps + more).chan.panicked) <==> !Safe(Run(steps))
  {
    hide Do, Doomed, Safe;
    if Doomed(Run(steps)) {
      forall more: seq<Step> ensures !Run(steps + more).pc.Returned? {
        DoomedForever(steps, more);
      }
    } else {
      var more := ReturnReachable(steps);
    }
    if Safe(Run(steps)) {
      forall more: seq<Step> ensures !Run(steps + more).chan.panicked {
        SafeForever(steps, more);
      }
    } else {
      var more := PanicReachable(steps);
    }
  }

  /** Run connects, recvLoop begins to read, the context is cancelled, and Run finds `done` open. */
  lemma ReachesShutdown() returns (steps: seq<Step>)
    ensures
      var b := Run(steps);
      && b.pc.SendBye? && b.checked.FoundOpen? && b.crew.recv.Reading?
      && b.ctx && !b.chan.done && !b.chan.onceFired && !b.chan.panicked
  {
    var moves := [RunStep(true, false), RunStep(true, false), RunStep(true, false), RunStep(true, false),
                  RunStep(true, false), RecvStep(false), Cancel, RunStep(true, false), RunStep(true, false)];
    var pcs := [Begin, EmitConnecting, Shaking, SwapConnected, EmitConnected, Select, Select, Select, Check, SendBye];
    steps := [];
    for i := 0 to |moves|
      invariant
        var b := Run(steps);
        && b.pc == pcs[i] && b.ctx == (i >= 7) && !b.chan.done && !b.chan.onceFired && !b.chan.panicked
        && b.crew.recv == (if i >= 6 then Reading else if i == 5 then Looping else Absent)
        && (i == 9 ==> b.checked.FoundOpen?)
    {
      RunNext(steps, moves[i]);
      steps := steps + [moves[i]];
    }
  }

  /** The panic does happen: a BYE is handled between Run's check of `done` and its close. */
  lemma ByeDuringShutdownPanics() returns (steps: seq<Step>)
    ensures Run(steps).chan.panicked
  {
    steps := ReachesShutdown();
    for i := 0 to 4
      invariant
        var b := Run(steps);
        && b.pc.SendBye? && b.crew.recv.Reading? == (i == 0)
        && b.crew.recv.Swapping? == (i == 1) && b.crew.recv.Emitting? == (i == 2) && b.crew.recv.Closing? == (i == 3)
        && b.chan.done == b.chan.onceFired == (i == 4) && !b.chan.panicked
    {
      RunNext(steps, RecvStep(true));
      steps := steps + [RecvStep(true)];
    }
    RunNext(steps, RunStep(true, false));
    steps := steps + [RunStep(true, false)];
    RunNext(steps, RunStep(true, false));
    steps := steps + [RunStep(true, false)];
  }
}
