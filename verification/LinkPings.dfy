/** What every run of the two processes keeps about pings, pongs and round-trip samples. */
module LinkPings {
  import opened ByteOrder
  import opened Protocol
  import opened Link
  import opened LinkFrames
  import PingMonitor

  ghost predicate Said(log: Log, m: Message) {
    exists j :: 0 <= j < |log.issued| && log.issued[j].m == m
  }

  /** A PONG is only ever the echo of a PING of the other side. */
  ghost predicate Echoes(log: Log, from: Log) {
    forall i | 0 <= i < |log.issued| && log.issued[i].m.Pong? :: Said(from, Ping(log.issued[i].m.timestamp))
  }

  /** `lastPing` is the newest ping, and the outstanding one if any is. */
  ghost predicate Clocked(me: Peer) {
    && me.mon.lastPing <= me.mon.clock
    && (me.mon.hand.Some? ==> me.mon.hand.value <= me.mon.lastPing)
    && (me.mon.ping.pending == 0 || me.mon.ping.pending == me.mon.lastPing)
    && (forall i | 0 <= i < |me.log.issued| && me.log.issued[i].m.Ping? :: me.log.issued[i].m.timestamp <= me.mon.lastPing)
  }

  /** One sample per ping at most, each for a ping sent and echoed, none negative. */
  ghost predicate Sampled(me: Peer, other: Log) {
    && (forall k | 0 <= k < |me.mon.samples| :: SampleOk(me, other, me.mon.samples[k]))
    && (forall j, k | 0 <= j < k < |me.mon.samples| :: me.mon.samples[j].timestamp < me.mon.samples[k].timestamp)
  }

  ghost predicate SampleOk(me: Peer, other: Log, x: Sample) {
    && x.rtt >= 0
    && x.timestamp <= me.mon.lastPing
    && (me.mon.ping.pending != 0 ==> x.timestamp < me.mon.ping.pending)
    && Said(me.log, Ping(x.timestamp))
    && Said(other, Pong(x.timestamp))
  }

  lemma EchoesGrow(log: Log, from: Log, from': Log)
    requires Echoes(log, from) && Grows(from, from')
    ensures Echoes(log, from')
  {
  }

  lemma EchoesStep(c: Config, me: Peer, other: Log, a: Step)
    requires Receives(me, other) && Echoes(me.log, other)
    ensures Echoes(Do(c, me, other, a).log, other)
  {
  }

  lemma ClockedStep(c: Config, me: Peer, other: Log, a: Step)
    requires Clocked(me)
    ensures Clocked(Do(c, me, other, a))
  {
    hide Unseal, Seal;
  }

  /** Samples survive anything that keeps `lastPing` and does not move `pending` backwards. */
  lemma SampledKept(me: Peer, me': Peer, other: Log, other': Log)
    requires Sampled(me, other) && Grows(me.log, me'.log) && Grows(other, other')
    requires me'.mon.samples == me.mon.samples && me.mon.lastPing <= me'.mon.lastPing
    requires me'.mon.ping.pending in {0, me.mon.ping.pending} || me.mon.lastPing < me'.mon.ping.pending
    ensures Sampled(me', other')
  {
  }

  /** A matching PONG: the sample is for the newest ping, sent and echoed. */
  lemma SampledPong(me: Peer, other: Log, now: int)
    requires Receives(me, other) && Clocked(me) && Sampled(me, other) && Echoes(other, me.log)
    requires me.rx.inbox.Some? && me.rx.inbox.value.m.Pong? && now >= me.mon.clock
    requires me.rx.inbox.value.m.timestamp == me.mon.ping.pending != 0
    ensures Sampled(DoDispatch(me, now), other)
  {
  }

  lemma SampledStep(c: Config, me: Peer, other: Log, a: Step)
    requires Receives(me, other) && Clocked(me) && Sampled(me, other) && Echoes(other, me.log)
    ensures Sampled(Do(c, me, other, a), other)
  {
    hide Unseal, Seal;
    StepGrows(c, me, other, a);
    var me' := Do(c, me, other, a);
    if me'.mon.samples == me.mon.samples {
      SampledKept(me, me', other, other);
    } else if a.Dispatch? {
      SampledPong(me, other, a.at);
    }
  }

  ghost predicate PingInv(me: Peer, other: Log) {
    Echoes(me.log, other) && Clocked(me) && Sampled(me, other)
  }

  lemma PairPingStep(c: Config, me: Peer, other: Peer, a: Step)
    requires Receives(me, other.log) && PingInv(me, other.log) && PingInv(other, me.log)
    ensures
      var me' := Do(c, me, other.log, a);
      PingInv(me', other.log) && PingInv(other, me'.log)
  {
    var me' := Do(c, me, other.log, a);
    StepGrows(c, me, other.log, a);
    EchoesStep(c, me, other.log, a);
    ClockedStep(c, me, other.log, a);
    SampledStep(c, me, other.log, a);
    EchoesGrow(other.log, me.log, me'.log);
    SampledKept(other, other, me.log, me'.log);
  }

  lemma {:induction false} RunPings(c: Config, turns: seq<Turn>)
    requires c.auth.Secure()
    ensures
      var s := Run(c, turns);
      PingInv(s.listener, s.dialer.log) && PingInv(s.dialer, s.listener.log)
  {
    if turns != [] {
      var s, t := Run(c, turns[..|turns| - 1]), turns[|turns| - 1];
      RunKeeps(c, turns[..|turns| - 1]);
      RunPings(c, turns[..|turns| - 1]);
      if t.who.Listener? {
        PairPingStep(c, s.listener, s.dialer, t.a);
      } else {
        PairPingStep(c, s.dialer, s.listener, t.a);
      }
    }
  }

  /**
   In every run, every round-trip sample of a bridge is non-negative and belongs to a
   ping this process encoded and the other process echoed, and no ping has two samples.
   */
  lemma SamplesAreEchoes(c: Config, turns: seq<Turn>, who: Role)
    requires c.auth.Secure()
    ensures
      var s := Run(c, turns);
      var me, other := Me(s, who), Other(s, who);
      && (forall k | 0 <= k < |me.mon.samples| ::
            && me.mon.samples[k].rtt >= 0
            && Said(me.log, Ping(me.mon.samples[k].timestamp))
            && Said(other.log, Pong(me.mon.samples[k].timestamp)))
      && (forall j, k | 0 <= j < k < |me.mon.samples| ::
            me.mon.samples[j].timestamp < me.mon.samples[k].timestamp)
  {
    RunPings(c, turns);
    var s := Run(c, turns);
    forall k | 0 <= k < |Me(s, who).mon.samples|
      ensures SampleOk(Me(s, who), Other(s, who).log, Me(s, who).mon.samples[k])
    {
    }
  }

  /** What dispatching a PONG does to a process. */
  ghost predicate PongEffect(me: Peer, me': Peer, t: I64, now: int) {
    if me.mon.ping.pending != 0 && t == me.mon.ping.pending then
      && me'.mon.samples == me.mon.samples + [Sample(t, now - t)]
      && me'.mon.ping == PingMonitor.IDLE
      && forall i | 0 <= i < |me.log.issued| && me.log.issued[i].m.Ping? :: me.log.issued[i].m.timestamp <= t
    else
      me'.mon == me.mon
  }

  lemma PongDispatched(me: Peer, now: int)
    requires Clocked(me) && now >= me.mon.clock && me.rx.inbox.Some? && me.rx.inbox.value.m.Pong?
    ensures PongEffect(me, DoDispatch(me, now), me.rx.inbox.value.m.timestamp, now)
  {
  }

  /**
   In every reachable state, dispatching a PONG takes a sample exactly when it echoes the
   outstanding ping, which is then the newest ping of the process; any other PONG, late
   or repeated, leaves the samples, the missed count and the outstanding ping alone.
   */
  lemma OnlyNewestPingSampled(c: Config, turns: seq<Turn>, who: Role, now: int)
    requires c.auth.Secure()
    ensures
      var me := Me(Run(c, turns), who);
      me.rx.inbox.Some? && me.rx.inbox.value.m.Pong? && now >= me.mon.clock ==>
        PongEffect(me, DoDispatch(me, now), me.rx.inbox.value.m.timestamp, now)
  {
    RunPings(c, turns);
    var me := Me(Run(c, turns), who);
    if me.rx.inbox.Some? && me.rx.inbox.value.m.Pong? && now >= me.mon.clock {
      PongDispatched(me, now);
    }
  }

  /** A written PING, read and dispatched. */
  lemma PingTaken(c: Config, me: Peer, from: Log, i: nat, t: I64, now: int)
    requires c.auth.Secure() && AllValid(from) && |me.log.issued| + 1 < TWO_64
    requires me.shake.phase.InSession? && me.rx.inbox.None? && me.rx.recvNonce <= i && now >= me.mon.clock
    requires i < |from.issued| && i in from.wire && from.issued[i].m == Ping(t)
    ensures
      var me' := Do(c, Do(c, me, from, Deliver(Genuine(i), me.shake.phase.peer)), from, Dispatch(now));
      && me'.log == me.log.(issued := me.log.issued + [Issue(Pong(t), 0)])
      && me'.rx == me.rx.(recvNonce := i + 1) && me'.mon == me.mon && me'.shake == me.shake && me'.tx == me.tx
  {
    hide Unseal, Seal;
    Arrival(c, from, me.rx.recvNonce, Genuine(i));
  }

  /**
   Every PING is answered: after any run, a PING of the peer that is read in session and not
   refused as old adds exactly the PONG with its timestamp to what the process has to send.
   */
  lemma PingsAreAnswered(c: Config, turns: seq<Turn>, who: Role, i: nat, t: I64, now: int)
    requires c.auth.Secure()
    requires
      var me, from := Me(Run(c, turns), who), Other(Run(c, turns), who).log;
      && me.shake.phase.InSession? && me.rx.inbox.None? && me.rx.recvNonce <= i && now >= me.mon.clock
      && |me.log.issued| + 1 < TWO_64
      && i < |from.issued| && i in from.wire && from.issued[i].m == Ping(t)
    ensures
      var me, from := Me(Run(c, turns), who), Other(Run(c, turns), who).log;
      var me' := Do(c, Do(c, me, from, Deliver(Genuine(i), me.shake.phase.peer)), from, Dispatch(now));
      me'.log.issued == me.log.issued + [Issue(Pong(t), 0)] && me'.mon == me.mon
  {
    RunKeeps(c, turns);
    PingTaken(c, Me(Run(c, turns), who), Other(Run(c, turns), who).log, i, t, now);
  }
}
