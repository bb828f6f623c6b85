/**
 The locked sections and handlers of the bridge (internal/bridge/bridge.go), as the code
 updates its fields, each as the steps it takes with nothing in between. Ghost fields record
 the runs: the queue handlers are steps of Pipeline, and setState, doneOnce and the parts of
 Run between its waits are steps of Lifecycle; the ping handlers are the transition
 functions of PingMonitor. Queued frames are values here; module RecvBuffer is about their
 storage.
 */
module BridgeCode {
  import opened ByteOrder
  import opened Protocol
  import opened Sequences
  import Transport
  import Stats
  import PingMonitor
  import Pipeline
  import Lifecycle

  class Bridge {
    const codec: Codec
    const transport: Transport.Transport
    const stats: Stats.Stats
    var state: Lifecycle.State
    var events: seq<Lifecycle.State>        // state_changed events
    var framesToSend: seq<Bytes>
    var framesToInject: seq<Bytes>
    var done: bool
    var onceFired: bool
    ghost var runClosed: bool                  // `done` was closed by Run
    ghost var panicked: bool                   // `done` was closed twice
    var pendingPing: I64
    var missedPongs: nat
    var txPackets: nat
    var txBytes: nat
    var rxPackets: nat
    var rxBytes: nat
    ghost var txSteps: seq<Pipeline.TxStep>    // captureLoop and sendLoop so far
    ghost var rxSteps: seq<Pipeline.RxStep>    // handleFrame and injectLoop so far
    ghost var life: seq<Lifecycle.Step>        // Run and its workers so far

    constructor (transport: Transport.Transport, stats: Stats.Stats)
      ensures this.transport == transport && this.stats == stats && codec == transport.codec
      ensures state == Lifecycle.DISCONNECTED && events == [] && framesToSend == [] && framesToInject == []
      ensures Valid() && txSteps == [] && rxSteps == [] && Monitor() == PingMonitor.IDLE
      ensures Lives() && life == []
      ensures txPackets == txBytes == rxPackets == rxBytes == 0
    {
      this.transport, this.stats, codec := transport, stats, transport.codec;
      state, events := Lifecycle.DISCONNECTED, [];
      framesToSend, framesToInject := [], [];
      done, onceFired, runClosed, panicked := false, false, false, false;
      txSteps, rxSteps, life := [], [], [];
      pendingPing, missedPongs := 0, 0;
      txPackets, txBytes, rxPackets, rxBytes := 0, 0, 0, 0;
    }

    ghost function Monitor(): PingMonitor.Monitor
      reads this
    {
      PingMonitor.Monitor(pendingPing, missedPongs)
    }

    ghost function View(): Lifecycle.View
      reads `state, `events
    {
      Lifecycle.View(state, events)
    }

    ghost function Chan(): Lifecycle.Chan
      reads `done, `onceFired, `runClosed, `panicked
    {
      Lifecycle.Chan(done, onceFired, runClosed, panicked)
    }

    /** Where Run and its workers are. */
    ghost function Life(): Lifecycle.Bridge
      reads `life
    {
      Lifecycle.Run(life)
    }

    /** State, events and `done` are those of the run. */
    ghost predicate Lives()
      reads `state, `events, `done, `onceFired, `runClosed, `panicked, `life
    {
      View() == Life().view && Chan() == Life().chan
    }

    /** The transmit fields show `t`, with sendLoop between two frames. */
    ghost predicate Transmits(t: Pipeline.Tx)
      reads `framesToSend, `txPackets, `txBytes
    {
      && t.hand.Empty? && Below(t.queue, |t.captured|) && framesToSend == Pipeline.Queued(t)
      && txPackets == t.txPackets && txBytes == t.txBytes
    }

    ghost predicate Injects(r: Pipeline.Rx)
      reads `framesToInject, `rxPackets, `rxBytes
    {
      && r.rxPackets == |r.handled| && Below(r.queue, |r.handled|) && framesToInject == Pipeline.Waiting(r)
      && rxPackets == r.rxPackets && rxBytes == r.rxBytes
    }

    /** The queues and counters are those of the two runs. */
    ghost predicate Valid()
      reads `framesToSend, `txPackets, `txBytes, `txSteps, `framesToInject, `rxPackets, `rxBytes, `rxSteps
    {
      Transmits(Pipeline.TxRun(txSteps)) && Injects(Pipeline.RxRun(rxSteps))
    }

    /** The transport can write: connected, open, and the socket takes the datagram. */
    ghost predicate CanSend(written: bool)
      reads transport
    {
      !transport.closed && transport.connected && written
    }

    /** An event is emitted on a change of state, and only then. */
    method SetState(s: Lifecycle.State)
      modifies this`state, this`events
      ensures state == s
      ensures events == if old(state) != s then old(events) + [s] else old(events)
    {
      var prev := state;
      state := s;
      if prev != s {
        events := events + [s];
      }
    }

    /** A step of some goroutine that touches none of these fields. */
    ghost method Elsewhere(a: Lifecycle.Step)
      requires Lives()
      requires Lifecycle.Do(Life(), a).view == Life().view && Lifecycle.Do(Life(), a).chan == Life().chan
      modifies `life
      ensures Lives() && life == old(life) + [a] && Life() == Lifecycle.Do(old(Life()), a)
    {
      Lifecycle.RunNext(life, a);
      life := life + [a];
    }

    /** A step twice in a row. */
    ghost method Twice(a: Lifecycle.Step)
      modifies `life
      ensures life == old(life) + [a, a] && Life() == Lifecycle.Do(Lifecycle.Do(old(Life()), a), a)
    {
      hide Lifecycle.Do, Lifecycle.Run;
      Lifecycle.RunNext(life, a);
      Lifecycle.RunNext(life + [a], a);
      life := life + [a] + [a];
    }

    /** Run begins: its first setState. */
    method Connecting()
      requires Lives() && Life().pc.Begin?
      modifies this`state, this`events, this`life
      ensures Lives() && Life().pc.Shaking?
      ensures life == old(life) + [Lifecycle.RunStep(true, false), Lifecycle.RunStep(true, false)]
    {
      Lifecycle.RunKeeps(life);
      Twice(Lifecycle.RunStep(true, false));
      SetState(Lifecycle.CONNECTING);
    }

    /** The handshake has succeeded; the workers start. */
    method Connected(statsInterval: nat)
      requires Lives() && Life().pc.Shaking?
      modifies this`state, this`events, this`life
      ensures Lives() && Life().pc.Select? && state == Lifecycle.CONNECTED
      ensures Life().crew.recv.Looping? && Life().crew.ping.Looping?
      ensures Lifecycle.StatsLoop in Life().crew.rest <==> statsInterval > 0
    {
      ghost var a := Lifecycle.RunStep(true, statsInterval > 0);
      Lifecycle.RunKeeps(life);
      Elsewhere(a);
      Twice(a);
      SetState(Lifecycle.CONNECTED);
    }

    /** All workers have exited: the last setState, and Run's result. */
    method Finish(peerLeft: bool) returns (result: Lifecycle.Result)
      requires Lives() && Life().pc.SwapDisconnected? && peerLeft == Life().checked.FoundClosed?
      modifies this`state, this`events, this`life
      ensures Lives() && Life().pc == Lifecycle.Returned(result)
      ensures events == Lifecycle.SESSION_EVENTS
    {
      Lifecycle.RunKeeps(life);
      Twice(Lifecycle.RunStep(true, false));
      Lifecycle.RunKeeps(life);
      SetState(Lifecycle.DISCONNECTED);
      result := if peerLeft then Lifecycle.PeerDisconnected else Lifecycle.Nil;
    }

    /** Ending the session: three steps of the worker that got a BYE or missed its PONGs. */
    method Disconnect(ghost a: Lifecycle.Step)
      requires Lives() && !panicked
      requires (a.RecvStep? && Life().crew.recv.Swapping?) || (a.PingStep? && Life().crew.ping.Swapping?)
      modifies this`state, this`events, this`done, this`onceFired, this`panicked, this`life
      ensures Lives() && life == old(life) + [a, a, a]
      ensures View() == Lifecycle.Disconnected(old(View())) && Chan() == old(Chan()).CloseByOnce()
      ensures panicked <==> old(done) && !old(onceFired)
      ensures if a.RecvStep? then Life().crew.recv.Looping? else Life().crew.ping.Looping?
    {
      hide Lifecycle.Do, Lifecycle.Run;
      Lifecycle.WorkerEnds(Life(), a);
      Twice(a);
      Lifecycle.RunNext(life, a);
      life := life + [a];
      SetState(Lifecycle.DISCONNECTED);
      if !onceFired {
        onceFired := true;
        panicked := done;
        done := true;
      }
    }

    /**
     Run's shutdown, up to the wait for its workers. A BYE is attempted, and `done` closed,
     exactly if the peer has not ended the session.
     */
    method Shutdown(written: bool) returns (peerLeft: bool)
      requires Lives() && !panicked && Life().pc.Check?
      requires codec == transport.codec && (transport.connected ==> transport.peerAddr.Some?)
      modifies this`done, this`runClosed, this`life, transport, codec`sendNonce
      ensures Lives() && Life().pc.Wait? && peerLeft == Life().checked.FoundClosed?
      ensures peerLeft == old(done) && transport.closed
      ensures Chan() == if peerLeft then old(Chan()) else old(Chan()).CloseByRun()
      ensures codec.sendNonce == if !peerLeft && old(CanSend(true)) then old(codec.NonceAfterSend()) else old(codec.sendNonce)
      ensures transport.out == old(transport.out) +
                (if !peerLeft && old(CanSend(written))
                 then [(Seal(codec.auth, codec.sendNonce, Bye), old(transport.peerAddr.value))] else [])
    {
      hide Lifecycle.Do, Lifecycle.Run, Seal;
      ghost var a := Lifecycle.RunStep(true, false);
      Lifecycle.RunChecks(Life(), a);
      Twice(a);
      peerLeft := done;
      if !peerLeft {
        Twice(a);
        var ok := transport.SendBye(written);
        done := true;
        runClosed := true;
      }
      transport.Close();
    }

    /** captureLoop's non-blocking send on the channel: the step Capture. */
    method CaptureFrame(frame: Bytes) returns (queued: bool)
      requires Valid()
      modifies this`framesToSend, this`txSteps
      ensures Valid() && txSteps == old(txSteps) + [Pipeline.Capture(frame)]
      ensures queued <==> |old(framesToSend)| < Pipeline.CAPACITY
      ensures framesToSend == if queued then old(framesToSend) + [frame] else old(framesToSend)
    {
      hide Pipeline.TxRun, Pipeline.RxRun;
      Pipeline.QueuedCapture(Pipeline.TxRun(txSteps), frame);
      Pipeline.TxNext(txSteps, Pipeline.Capture(frame));
      queued := |framesToSend| < Pipeline.CAPACITY;
      if queued {
        framesToSend := framesToSend + [frame];
      }
      txSteps := txSteps + [Pipeline.Capture(frame)];
    }

    ghost method RecordSend(ok: bool)
      modifies this`txSteps
      ensures txSteps == old(txSteps) + [Pipeline.Dequeue, Pipeline.Encode, Pipeline.Write(ok)]
      ensures Pipeline.TxRun(txSteps) ==
              Pipeline.TxDo(Pipeline.TxDo(Pipeline.TxDo(Pipeline.TxRun(old(txSteps)), Pipeline.Dequeue),
                                          Pipeline.Encode), Pipeline.Write(ok))
    {
      hide Pipeline.TxRun, Pipeline.TxDo;
      var s := txSteps;
      Pipeline.TxNext(s, Pipeline.Dequeue);
      Pipeline.TxNext(s + [Pipeline.Dequeue], Pipeline.Encode);
      Pipeline.TxNext(s + [Pipeline.Dequeue] + [Pipeline.Encode], Pipeline.Write(ok));
      txSteps := s + [Pipeline.Dequeue] + [Pipeline.Encode] + [Pipeline.Write(ok)];
    }

    /**
     One turn of sendLoop: the steps Dequeue, Encode and Write. A frame of an illegal size
     costs no nonce and is not counted.
     */
    method SendOne(written: bool)
      requires Valid() && framesToSend != [] && codec == transport.codec
      requires transport.connected ==> transport.peerAddr.Some?
      modifies this`framesToSend, this`txPackets, this`txBytes, this`txSteps, codec`sendNonce, transport`out
      ensures Valid() && txSteps == old(txSteps) + [Pipeline.Dequeue, Pipeline.Encode, Pipeline.Write(CanSend(written))]
      ensures framesToSend == old(framesToSend)[1..]
      ensures
        var f := old(framesToSend)[0];
        if !Frame(f).Valid() then
          codec.sendNonce == old(codec.sendNonce) && transport.out == old(transport.out)
          && txPackets == old(txPackets) && txBytes == old(txBytes)
        else
          && codec.sendNonce == old(codec.NonceAfterSend())
          && if CanSend(written) then
               && transport.out == old(transport.out) +
                    [(Seal(codec.auth, codec.sendNonce, Frame(f)), transport.peerAddr.value)]
               && txPackets == old(txPackets) + 1 && txBytes == old(txBytes) + |f|
             else
               transport.out == old(transport.out) && txPackets == old(txPackets) && txBytes == old(txBytes)
    {
      hide Pipeline.TxRun, Pipeline.RxRun, Pipeline.TxDo;
      Pipeline.QueuedSend(Pipeline.TxRun(txSteps), CanSend(written));
      RecordSend(CanSend(written));
      var frame := framesToSend[0];
      framesToSend := framesToSend[1..];
      var encoded := codec.EncodeFrame(frame);
      if encoded.Err? {
        return;
      }
      var ok := transport.Send(encoded.value, written);
      if ok {
        txPackets := txPackets + 1;
        txBytes := txBytes + |frame|;
      }
    }

    /** The step Handle. */
    method HandleFrame(frame: Bytes) returns (queued: bool)
      requires Valid()
      modifies this`framesToInject, this`rxPackets, this`rxBytes, this`rxSteps
      ensures Valid() && rxSteps == old(rxSteps) + [Pipeline.Handle(frame)]
      ensures rxPackets == old(rxPackets) + 1 && rxBytes == old(rxBytes) + |frame|
      ensures queued <==> |old(framesToInject)| < Pipeline.CAPACITY
      ensures framesToInject == if queued then old(framesToInject) + [frame] else old(framesToInject)
    {
      hide Pipeline.TxRun, Pipeline.RxRun;
      Pipeline.WaitingStep(Pipeline.RxRun(rxSteps), Pipeline.Handle(frame));
      Pipeline.RxNext(rxSteps, Pipeline.Handle(frame));
      rxPackets := rxPackets + 1;
      rxBytes := rxBytes + |frame|;
      queued := |framesToInject| < Pipeline.CAPACITY;
      if queued {
        framesToInject := framesToInject + [frame];
      }
      rxSteps := rxSteps + [Pipeline.Handle(frame)];
    }

    /** One turn of injectLoop: the step Inject. The frame is the oldest one waiting. */
    method InjectOne() returns (frame: Bytes)
      requires Valid() && framesToInject != []
      modifies this`framesToInject, this`rxSteps
      ensures Valid() && rxSteps == old(rxSteps) + [Pipeline.Inject]
      ensures [frame] + framesToInject == old(framesToInject)
      ensures
        var r := Pipeline.RxRun(rxSteps);
        && r.injected != [] && r.injected[|r.injected| - 1] < |r.handled|
        && frame == r.handled[r.injected[|r.injected| - 1]]
    {
      hide Pipeline.TxRun, Pipeline.RxRun;
      Pipeline.WaitingStep(Pipeline.RxRun(rxSteps), Pipeline.Inject);
      Pipeline.RxNext(rxSteps, Pipeline.Inject);
      frame := framesToInject[0];
      framesToInject := framesToInject[1..];
      rxSteps := rxSteps + [Pipeline.Inject];
    }

    /** The PONG carries the timestamp of the PING. */
    method HandlePing(timestamp: I64, written: bool)
      requires codec == transport.codec && (transport.connected ==> transport.peerAddr.Some?)
      modifies codec`sendNonce, transport`out
      ensures codec.sendNonce == old(codec.NonceAfterSend())
      ensures transport.out == old(transport.out) +
                (if CanSend(written)
                 then [(Seal(codec.auth, codec.sendNonce, Pong(timestamp)), transport.peerAddr.value)] else [])
    {
      var pong := codec.EncodePingPong(Pong(timestamp));
      var ok := transport.Send(pong, written);
    }

    /** A matching PONG clears the outstanding ping and records the round trip; any other is ignored. */
    method HandlePong(timestamp: I64, now: I64, f: Stats.Float64Of) returns (sampled: bool, spiked: bool)
      requires stats.Valid()
      modifies this`pendingPing, this`missedPongs, stats
      ensures stats.Valid()
      ensures
        var (monitor, rtt) := PingMonitor.HandlePong(old(Monitor()), timestamp, now);
        && Monitor() == monitor
        && sampled == rtt.Some?
        && stats.history == old(stats.history) + (if sampled then [Stats.Wrap(rtt.value)] else [])
        && (!sampled ==> !spiked)
        && (sampled && Stats.SpikeExact(old(stats.rttCurrent), Stats.Wrap(rtt.value)) ==>
              (spiked <==> Stats.Spike(stats.history)))
    {
      if pendingPing == 0 || timestamp != pendingPing {
        return false, false;
      }
      var sent: int := timestamp;
      var rtt := Stats.Wrap(now - sent);
      pendingPing := 0;
      missedPongs := 0;
      spiked := stats.RecordPong(f, rtt);
      sampled := true;
    }

    /** Three missed PONGs in a row end the session; otherwise a new ping goes out. */
    method SendPing(now: I64, written: bool) returns (timeout: bool)
      requires Lives() && !panicked && Life().crew.ping.Looping?
      requires codec == transport.codec && (transport.connected ==> transport.peerAddr.Some?)
      modifies this`pendingPing, this`missedPongs
      modifies this`state, this`events, this`done, this`onceFired, this`panicked, this`life
      modifies codec`sendNonce, transport`out
      ensures (Monitor(), timeout) == PingMonitor.SendPing(old(Monitor()), now)
      ensures Lives() && Life().crew.ping.Looping?
      ensures timeout ==>
                && View() == Lifecycle.Disconnected(old(View())) && Chan() == old(Chan()).CloseByOnce()
                && transport.out == old(transport.out) && codec.sendNonce == old(codec.sendNonce)
      ensures !timeout ==>
                && View() == old(View()) && Chan() == old(Chan()) && life == old(life)
                && codec.sendNonce == old(codec.NonceAfterSend())
                && transport.out == old(transport.out) +
                     (if CanSend(written)
                      then [(Seal(codec.auth, codec.sendNonce, Ping(now)), transport.peerAddr.value)] else [])
    {
      if pendingPing != 0 {
        missedPongs := missedPongs + 1;
        if missedPongs >= PingMonitor.MAX_MISSED_PONGS {
          Elsewhere(Lifecycle.PingStep(true));
          Disconnect(Lifecycle.PingStep(true));
          return true;
        }
      }
      pendingPing := now;
      var ping := codec.EncodePingPong(Ping(now));
      var ok := transport.Send(ping, written);
      return false;
    }
  }

  /**
   What the runs of Pipeline keep, as the bridge's fields show it: every captured frame is
   counted, waiting, dropped, refused or failed to go out, every received one is injected,
   waiting or dropped, in order, and neither queue exceeds its capacity.
   */
  lemma FieldsConserved(b: Bridge)
    requires b.Valid()
    ensures
      var t, r := Pipeline.TxRun(b.txSteps), Pipeline.RxRun(b.rxSteps);
      && |b.framesToSend| <= Pipeline.CAPACITY && |b.framesToInject| <= Pipeline.CAPACITY
      && |t.captured| == b.txPackets + |b.framesToSend| + t.dropped + t.rejected + t.failed
      && Increasing(t.sent) && Below(t.sent, |t.captured|)
      && b.txPackets == |t.sent| && b.txBytes == Pipeline.TotalLength(t.captured, t.sent)
      && b.rxPackets == |r.injected| + |b.framesToInject| + r.dropped
      && b.rxBytes == Pipeline.Lengths(r.handled) && Increasing(Pipeline.InjectLine(r))
  {
    Pipeline.FramesConserved(b.txSteps);
    Pipeline.InjectionOrder(b.rxSteps);
  }

  /**
   What the runs of Lifecycle keep, as the bridge's fields show it: the events are a prefix
   of one session's, and a second close of `done` means that both Run and a worker closed it.
   */
  lemma FieldsOrdered(b: Bridge)
    requires b.Lives()
    ensures b.events <= Lifecycle.SESSION_EVENTS
    ensures b.panicked <==> b.runClosed && b.onceFired
  {
    Lifecycle.EventsArePrefix(b.life);
    Lifecycle.RunKeeps(b.life);
  }
}
