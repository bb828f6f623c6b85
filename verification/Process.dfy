/**
 The reconnection loop of runBridge (cmd/xbslink-ng/main.go) around the bridge's Run.

 Each bridge runs on a context derived from the application's, and that context is
 cancelled on its own only after Run has returned. A run is any sequence of signals, steps
 of the current bridge, and steps of the loop.
 */
module Process {
  import Lifecycle

  /** Where the loop is. */
  datatype Phase =
    | Top                                      // about to look at the application's context
    | Running                                  // in br.Run
    | Deciding(result: Lifecycle.Result)       // Run has returned
    | Reconnecting                             // the branch for a disconnected peer
    | Exited

  datatype Proc = Proc(app: bool, phase: Phase, bridge: Lifecycle.Bridge, started: nat)

  const START := Proc(false, Top, Lifecycle.START, 0)

  datatype Step =
    | Signal                                   // SIGINT or SIGTERM
    | Inner(a: Lifecycle.Step)                 // Run or one of its workers
    | Loop(created: bool)                      // `created`: transport.New and bridge.New succeed

  function DoLoop(p: Proc, created: bool): Proc {
    match p.phase
    case Top =>
      if p.app || !created then p.(phase := Exited)
      else p.(phase := Running, bridge := Lifecycle.START, started := p.started + 1)
    case Running =>
      if p.bridge.pc.Returned? then p.(phase := Deciding(p.bridge.pc.result)) else p
    case Deciding(result) =>
      if p.app || !result.PeerDisconnected? then p.(phase := Exited) else p.(phase := Reconnecting)
    case Reconnecting => p.(phase := if p.app then Exited else Top)
    case Exited => p
  }

  function Do(p: Proc, a: Step): Proc {
    match a
    case Signal =>
      if p.phase.Running? then p.(app := true, bridge := Lifecycle.Do(p.bridge, Lifecycle.Cancel)) else p.(app := true)
    case Inner(b) => if p.phase.Running? && !b.Cancel? then p.(bridge := Lifecycle.Do(p.bridge, b)) else p
    case Loop(created) => DoLoop(p, created)
  }

  function Run(steps: seq<Step>): Proc {
    if steps == [] then START else Do(Run(steps[..|steps| - 1]), steps[|steps| - 1])
  }

  /** A bridge's context is cancelled by the application's only. */
  ghost predicate Inv(p: Proc) {
    && p.started <= 1
    && (p.phase.Top? ==> p.started == 0)
    && (p.phase.Running? || p.phase.Deciding? ==> p.started == 1)
    && !p.phase.Reconnecting?
    && (p.phase.Running? ==> Lifecycle.LifeInv(p.bridge) && (p.bridge.ctx ==> p.app))
    && (p.phase.Deciding? ==> p.phase.result.PeerDisconnected? ==> p.app)
  }

  /** The bridge's own steps do not cancel its context. */
  lemma ContextKept(b: Lifecycle.Bridge, a: Lifecycle.Step)
    requires !a.Cancel?
    ensures Lifecycle.Do(b, a).ctx == b.ctx
  {
  }

  lemma StepKeeps(p: Proc, a: Step)
    requires Inv(p)
    ensures Inv(Do(p, a))
  {
    hide Lifecycle.EventsInv;
    match a
    case Signal => if p.phase.Running? { Lifecycle.StepKeeps(p.bridge, Lifecycle.Cancel); }
    case Inner(b) =>
      if p.phase.Running? && !b.Cancel? {
        hide Lifecycle.Do, Lifecycle.LifeInv;
        Lifecycle.StepKeeps(p.bridge, b);
        ContextKept(p.bridge, b);
      }
    case Loop(_) =>
      if p.phase.Top? { Lifecycle.RunKeeps([]); }
  }

  lemma {:induction false} RunKeeps(steps: seq<Step>)
    ensures Inv(Run(steps))
  {
    if steps != [] {
      RunKeeps(steps[..|steps| - 1]);
      StepKeeps(Run(steps[..|steps| - 1]), steps[|steps| - 1]);
    }
  }

  /**
   The loop never reconnects. In every run at most one bridge is started and the branch for
   a disconnected peer is not entered: its Run returns only after a signal, and a signal
   makes the loop exit first.
   */
  lemma NeverReconnects(steps: seq<Step>)
    ensures
      var p := Run(steps);
      && p.started <= 1 && !p.phase.Reconnecting? && (p.phase.Top? ==> p.started == 0)
      && (p.phase.Deciding? && p.phase.result.PeerDisconnected? ==> p.app)
  {
    RunKeeps(steps);
  }

  /**
   A BYE alone ends nothing: in a run without a signal, a process that has left its bridge's
   Run has never been connected, so one that has been is still inside Run, whatever BYEs and
   ping timeouts it has handled.
   */
  lemma {:induction false} ByeAloneEndsNothing(steps: seq<Step>)
    requires Signal !in steps
    ensures
      var p := Run(steps);
      && !p.app
      && (p.started == 1 && !p.phase.Running? ==> p.bridge.pc == Lifecycle.Returned(Lifecycle.ConnectionFailed))
  {
    if steps != [] {
      var init := steps[..|steps| - 1];
      ByeAloneEndsNothing(init);
      RunKeeps(init);
    }
  }

  lemma RunNext(steps: seq<Step>, a: Step)
    ensures Run(steps + [a]) == Do(Run(steps), a)
  {
  }

  /** The bridge is connected and recvLoop has got as far as `recv` with a BYE. */
  ghost predicate HasBye(p: Proc, recv: Lifecycle.Worker) {
    && !p.app && p.phase.Running? && p.bridge.pc.Select? && p.bridge.chan == Lifecycle.START.chan && !p.bridge.ctx
    && p.bridge.crew.recv == recv && p.bridge.crew.ping.Looping?
    && p.bridge.view.state == (if recv.Looping? || recv.Reading? || recv.Swapping? then Lifecycle.CONNECTED
                               else Lifecycle.DISCONNECTED)
  }

  /** The process starts a bridge, and it connects. */
  lemma Connects() returns (steps: seq<Step>)
    ensures Signal !in steps && HasBye(Run(steps), Lifecycle.Looping)
  {
    var pcs := [Lifecycle.Begin, Lifecycle.EmitConnecting, Lifecycle.Shaking, Lifecycle.SwapConnected,
                Lifecycle.EmitConnected, Lifecycle.Select];
    RunNext([], Loop(true));
    steps := [] + [Loop(true)];
    for i := 0 to 5
      invariant Signal !in steps
      invariant
        var p := Run(steps);
        && !p.app && p.phase.Running? && p.bridge.pc == pcs[i] && p.bridge.chan == Lifecycle.START.chan && !p.bridge.ctx
        && (i >= 4 ==> p.bridge.view.state == Lifecycle.CONNECTED)
        && (i == 5 ==> p.bridge.crew.recv.Looping? && p.bridge.crew.ping.Looping?)
    {
      RunNext(steps, Inner(Lifecycle.RunStep(true, false)));
      steps := steps + [Inner(Lifecycle.RunStep(true, false))];
    }
  }

  /**
   The reconnection is promised in this run: no signal, a peer that connected and said BYE,
   the BYE handled, all three events out, and Run past its check with the answer that the
   peer has left. It waits there for workers that only a signal ends.
   */
  lemma ByeHandled() returns (steps: seq<Step>)
    ensures
      var p := Run(steps);
      && Signal !in steps && p.phase.Running? && p.bridge.pc.Wait?
      && p.bridge.checked.FoundClosed? && p.bridge.chan.onceFired
      && p.bridge.view == Lifecycle.View(Lifecycle.DISCONNECTED, Lifecycle.SESSION_EVENTS)
  {
    var bye, run := Inner(Lifecycle.RecvStep(true)), Inner(Lifecycle.RunStep(true, false));
    var recvs := [Lifecycle.Looping, Lifecycle.Reading, Lifecycle.Swapping, Lifecycle.Emitting(true), Lifecycle.Closing];
    steps := Connects();
    for i := 0 to 4
      invariant Signal !in steps && HasBye(Run(steps), recvs[i])
    {
      RunNext(steps, bye);
      steps := steps + [bye];
    }
    RunNext(steps, bye);
    steps := steps + [bye];
    var pcs := [Lifecycle.Select, Lifecycle.Check, Lifecycle.CloseTransport, Lifecycle.Wait];
    for i := 0 to 3
      invariant Signal !in steps
      invariant
        var p := Run(steps);
        && p.phase.Running? && p.bridge.pc == pcs[i] && !p.bridge.chan.panicked
        && p.bridge.chan.done && p.bridge.chan.onceFired && p.bridge.view.state == Lifecycle.DISCONNECTED
        && p.bridge.crew.recv.Looping? && p.bridge.crew.ping.Looping?
        && (i >= 2 ==> p.bridge.checked.FoundClosed?)
    {
      RunNext(steps, run);
      steps := steps + [run];
    }
    RunKeeps(steps);
  }

  // ----------------------------------------------------------------- shutdown

  /** A signal reaches the bridge: in every run its context is cancelled as soon as the application's is. */
  lemma {:induction false} SignalCancels(steps: seq<Step>)
    ensures
      var p := Run(steps);
      p.phase.Running? && p.app && !p.bridge.chan.panicked ==> p.bridge.ctx
  {
    if steps != [] {
      SignalCancels(steps[..|steps| - 1]);
    }
  }

  /** The bridge's steps among those of the process. */
  function Inside(more: seq<Lifecycle.Step>): seq<Step> {
    seq(|more|, i requires 0 <= i < |more| => if more[i].Cancel? then Signal else Inner(more[i]))
  }

  /** Inside Run the process follows the bridge. */
  lemma {:induction false} FollowsBridge(steps: seq<Step>, life: seq<Lifecycle.Step>, more: seq<Lifecycle.Step>)
    requires Run(steps).phase.Running? && Run(steps).bridge == Lifecycle.Run(life)
    ensures
      var p := Run(steps + Inside(more));
      p.phase.Running? && p.bridge == Lifecycle.Run(life + more)
    decreases |more|
  {
    hide Lifecycle.Do, Lifecycle.Run;
    if more == [] {
      assert steps + Inside(more) == steps && life + more == life;
    } else {
      var init, a := more[..|more| - 1], more[|more| - 1];
      FollowsBridge(steps, life, init);
      assert Inside(more) == Inside(init) + [Inside(more)[|init|]];
      RunNext(steps + Inside(init), Inside(more)[|init|]);
      assert steps + Inside(more) == steps + Inside(init) + [Inside(more)[|init|]];
      Lifecycle.RunNext(life + init, a);
      assert life + more == life + init + [a];
    }
  }

  /** The bridge of a process is in a state of some run of its own. */
  lemma {:induction false} BridgeRuns(steps: seq<Step>) returns (life: seq<Lifecycle.Step>)
    ensures Run(steps).phase.Running? ==> Run(steps).bridge == Lifecycle.Run(life)
  {
    hide Lifecycle.Do;
    life := [];
    if steps != [] {
      var init, a := steps[..|steps| - 1], steps[|steps| - 1];
      var before := BridgeRuns(init);
      if Run(init).phase.Running? {
        match a
        case Signal =>
          Lifecycle.RunNext(before, Lifecycle.Cancel);
          life := before + [Lifecycle.Cancel];
        case Inner(b) =>
          if b.Cancel? {
            life := before;
          } else {
            Lifecycle.RunNext(before, b);
            life := before + [b];
          }
        case Loop(_) => life := before;
      }
    }
  }

  /** After Run has returned, the loop exits. */
  lemma LoopExits(steps: seq<Step>) returns (more: seq<Step>)
    requires
      var p := Run(steps);
      p.phase.Deciding? || (p.phase.Running? && p.bridge.pc.Returned?)
    ensures Run(steps + more).phase.Exited?
  {
    RunKeeps(steps);
    more := [Loop(true)];
    RunNext(steps, Loop(true));
    RunKeeps(steps + [Loop(true)]);
    if Run(steps).phase.Running? {
      more := [Loop(true), Loop(true)];
      RunNext(steps + [Loop(true)], Loop(true));
      assert steps + more == steps + [Loop(true)] + [Loop(true)];
    }
  }

  /** The process can end from every reachable state, except from one in which its bridge is doomed to panic. */
  lemma CanExit(steps: seq<Step>) returns (more: seq<Step>)
    requires Run(steps).phase.Running? ==> !Lifecycle.Doomed(Run(steps).bridge)
    ensures Run(steps + more).phase.Exited?
  {
    hide Lifecycle.Do;
    RunKeeps(steps);
    if Run(steps).phase.Running? {
      var life := BridgeRuns(steps);
      var inner := Lifecycle.ReturnReachable(life);
      FollowsBridge(steps, life, inner);
      var rest := LoopExits(steps + Inside(inner));
      more := Inside(inner) + rest;
      assert steps + more == steps + Inside(inner) + rest;
    } else if Run(steps).phase.Deciding? {
      more := LoopExits(steps);
    } else if Run(steps).phase.Top? {
      more := [Loop(false)];
      RunNext(steps, Loop(false));
    } else {
      more := [];
      assert steps + more == steps;
    }
  }

  /** From a doomed bridge the process cannot end in order. */
  lemma DoomedNeverExits(steps: seq<Step>, more: seq<Step>)
    requires Run(steps).phase.Running? && Lifecycle.Doomed(Run(steps).bridge)
    ensures Run(steps + more).phase.Running?
  {
    StaysDoomed(steps, more);
  }

  lemma {:induction false} StaysDoomed(steps: seq<Step>, more: seq<Step>)
    requires Run(steps).phase.Running? && Lifecycle.Doomed(Run(steps).bridge)
    ensures Run(steps + more).phase.Running? && Lifecycle.Doomed(Run(steps + more).bridge)
    decreases |more|
  {
    hide Lifecycle.Do, Lifecycle.Doomed, Lifecycle.LifeInv;
    if more == [] {
      assert steps + more == steps;
    } else {
      var init, a := more[..|more| - 1], more[|more| - 1];
      StaysDoomed(steps, init);
      RunKeeps(steps + init);
      RunNext(steps + init, a);
      assert steps + more == steps + init + [a];
      Lifecycle.DoomedStays(Run(steps + init).bridge, if a.Inner? then a.a else Lifecycle.Cancel);
    }
  }

  /**
   What the dead branch would do: a loop that got PeerDisconnected without a signal starts
   another bridge, in its initial state.
   */
  lemma WouldReconnect(p: Proc)
    requires p.phase == Deciding(Lifecycle.PeerDisconnected) && !p.app
    ensures Do(Do(Do(p, Loop(true)), Loop(true)), Loop(true)) ==
            p.(phase := Running, bridge := Lifecycle.START, started := p.started + 1)
  {
  }
}
