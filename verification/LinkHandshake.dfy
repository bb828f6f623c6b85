/** What every run of the two processes keeps about the handshake. */
module LinkHandshake {
  import opened ByteOrder
  import opened Protocol
  import opened Transport
  import opened Link
  import opened LinkFrames
  import PingMonitor
  import Pipeline

  /** An acceptance on record: the HELLO was the dialler's, and the answer to it was written. */
  ghost predicate AcceptOk(c: Config, l: Log, d: Log, a: Accepted) {
    && |a.challenge| == CHALLENGE_SIZE
    && a.hello < |d.issued| && d.issued[a.hello].m == Hello(PROTOCOL_VERSION, a.challenge)
    && a.ack < |l.issued| && a.ack in l.wire
    && l.issued[a.ack].m == HelloAck(PROTOCOL_VERSION, c.auth.Response(a.challenge))
  }

  ghost predicate Recorded(accepts: seq<Accepted>, i: nat) {
    exists k :: 0 <= k < |accepts| && accepts[k].ack == i
  }

  ghost predicate AcceptedChallenge(accepts: seq<Accepted>, challenge: Bytes) {
    exists k :: 0 <= k < |accepts| && accepts[k].challenge == challenge
  }

  /** The listener answers only HELLOs it accepted, and is in session with the last one. */
  ghost predicate ListenerOk(c: Config, l: Peer, d: Log) {
    && l.role.Listener?
    && (l.shake.phase.Waiting? || l.shake.phase.InSession?)
    && (forall k | 0 <= k < |l.shake.accepts| :: AcceptOk(c, l.log, d, l.shake.accepts[k]))
    && (forall i | 0 <= i < |l.log.issued| && l.log.issued[i].m.HelloAck? :: Recorded(l.shake.accepts, i))
    && (l.shake.phase.InSession? ==>
          && |l.shake.accepts| > 0
          && var a := l.shake.accepts[|l.shake.accepts| - 1];
             l.shake.phase == InSession(a.challenge, a.src))
  }

  ghost predicate DistinctHellos(log: Log) {
    forall i, j | 0 <= i < j < |log.issued| && log.issued[i].m.Hello? :: log.issued[i].m != log.issued[j].m
  }

  /** The dialler's session is with the dialled address, for a challenge the listener accepted. */
  ghost predicate PhaseOk(c: Config, d: Peer, accepts: seq<Accepted>) {
    match d.shake.phase
    case Waiting => false
    case Resting => true
    case Attempting(challenge) => |challenge| == CHALLENGE_SIZE
    case InSession(challenge, peer) => peer == c.target && AcceptedChallenge(accepts, challenge)
  }

  /** The dialler never repeats a challenge. */
  ghost predicate DialerOk(c: Config, d: Peer, accepts: seq<Accepted>) {
    d.role.Dialer? && DistinctHellos(d.log) && PhaseOk(c, d, accepts)
  }

  // ------------------------------------------------------------ listener moves

  lemma ListenerSeesDialer(c: Config, l: Peer, d: Log, d': Log)
    requires ListenerOk(c, l, d) && Grows(d, d')
    ensures ListenerOk(c, l, d')
  {
  }

  /** Steps other than an acceptance add no HELLO_ACK. */
  lemma ListenerQuiet(c: Config, l: Peer, d: Log, l': Peer)
    requires ListenerOk(c, l, d) && Grows(l.log, l'.log) && l'.role == l.role
    requires l'.shake.accepts == l.shake.accepts && (l'.shake.phase == l.shake.phase || l'.shake.phase.Waiting?)
    requires |l'.log.issued| > |l.log.issued| ==> !l'.log.issued[|l.log.issued|].m.HelloAck?
    ensures ListenerOk(c, l', d)
  {
  }

  /** An acceptance is recorded together with the answer to it. */
  lemma ListenerAccepts(c: Config, l: Peer, d: Log, l': Peer, a: Accepted)
    requires ListenerOk(c, l, d) && Grows(l.log, l'.log) && l'.role == l.role
    requires l'.shake == Shake(InSession(a.challenge, a.src), l.shake.accepts + [a])
    requires a.ack == |l.log.issued| && |l'.log.issued| == a.ack + 1 && AcceptOk(c, l'.log, d, a)
    ensures ListenerOk(c, l', d)
  {
    var n := |l.shake.accepts|;
    forall k | 0 <= k <= n ensures AcceptOk(c, l'.log, d, l'.shake.accepts[k]) {
      if k < n {
        assert AcceptOk(c, l.log, d, l.shake.accepts[k]);
      }
    }
    forall i | 0 <= i < |l'.log.issued| && l'.log.issued[i].m.HelloAck? ensures Recorded(l'.shake.accepts, i) {
      if i < a.ack {
        assert l'.log.issued[i] == l.log.issued[i];
        var k :| 0 <= k < n && l.shake.accepts[k].ack == i;
        assert l'.shake.accepts[k].ack == i;
      } else {
        assert l'.shake.accepts[n].ack == i;
      }
    }
  }

  lemma ListenerDeliver(c: Config, l: Peer, d: Log, p: Packet, src: Addr)
    requires c.auth.Secure() && AllValid(d) && ListenerOk(c, l, d) && |l.log.issued| + 1 < TWO_64
    ensures ListenerOk(c, DoDeliver(c, l, d, p, src), d)
  {
    hide Unseal, Seal;
    var l' := DoDeliver(c, l, d, p, src);
    StepGrows(c, l, d, Deliver(p, src));
    if Deliverable(c, d, p) && l.shake.phase.Waiting? {
      Arrival(c, d, l.rx.recvNonce, p);
      var r := Unseal(c.auth, l.rx.recvNonce, Contents(c, d, p)).0;
      if OnWaiting(r).Accept? {
        ListenerAccepts(c, l, d, l', Accepted(src, r.value.challenge, Position(p), |l.log.issued|));
      } else {
        ListenerQuiet(c, l, d, l');
      }
    } else {
      ListenerQuiet(c, l, d, l');
    }
  }

  lemma ListenerStep(c: Config, l: Peer, d: Log, a: Step)
    requires c.auth.Secure() && AllValid(d) && ListenerOk(c, l, d)
    ensures ListenerOk(c, Do(c, l, d, a), d)
  {
    if |l.log.issued| + 1 < TWO_64 {
      if a.Deliver? {
        ListenerDeliver(c, l, d, a.packet, a.src);
      } else {
        StepGrows(c, l, d, a);
        ListenerQuiet(c, l, d, Do(c, l, d, a));
      }
    }
  }

  // ------------------------------------------------------------- dialler moves

  lemma DialerSeesListener(c: Config, d: Peer, accepts: seq<Accepted>, accepts': seq<Accepted>)
    requires DialerOk(c, d, accepts) && accepts <= accepts'
    ensures DialerOk(c, d, accepts')
  {
  }

  lemma HellosStayDistinct(c: Config, d: Peer, l: Log, a: Step)
    requires DistinctHellos(d.log) && !d.shake.phase.Waiting?
    ensures DistinctHellos(Do(c, d, l, a).log)
  {
  }

  /** A HELLO_ACK that joins an attempt answers that attempt's own challenge. */
  lemma JoinIsAnswer(c: Config, d: Peer, l: Peer, p: Packet)
    requires c.auth.Secure() && SeparatesChallenges(c.auth) && AllValid(l.log)
    requires ListenerOk(c, l, d.log) && Deliverable(c, l.log, p) && d.shake.phase.Attempting?
    requires |d.shake.phase.challenge| == CHALLENGE_SIZE
    ensures
      var r := Unseal(c.auth, d.rx.recvNonce, Contents(c, l.log, p)).0;
      OnAttempt(c.auth, d.shake.phase.challenge, r).Join? ==>
        AcceptedChallenge(l.shake.accepts, d.shake.phase.challenge)
  {
    hide Unseal, Seal;
    Arrival(c, l.log, d.rx.recvNonce, p);
    var r := Unseal(c.auth, d.rx.recvNonce, Contents(c, l.log, p)).0;
    if OnAttempt(c.auth, d.shake.phase.challenge, r).Join? {
      assert Recorded(l.shake.accepts, p.i);
      var k :| 0 <= k < |l.shake.accepts| && l.shake.accepts[k].ack == p.i;
      assert AcceptOk(c, l.log, d.log, l.shake.accepts[k]);
      AckJoinsItsOwnAttempt(c.auth, d.shake.phase.challenge, l.shake.accepts[k].challenge);
    }
  }

  lemma DialerDeliver(c: Config, d: Peer, l: Peer, p: Packet, src: Addr)
    requires c.auth.Secure() && SeparatesChallenges(c.auth) && AllValid(l.log)
    requires ListenerOk(c, l, d.log) && DialerOk(c, d, l.shake.accepts)
    ensures
      var d' := DoDeliver(c, d, l.log, p, src);
      d'.role == d.role && (d'.shake.phase == d.shake.phase || d'.shake.phase.Resting? || PhaseOk(c, d', l.shake.accepts))
  {
    hide Unseal, Seal;
    if Deliverable(c, l.log, p) && d.shake.phase.Attempting? {
      JoinIsAnswer(c, d, l, p);
    }
  }

  lemma DialerPhase(c: Config, d: Peer, l: Log, accepts: seq<Accepted>, a: Step)
    requires PhaseOk(c, d, accepts) && d.role.Dialer? && !a.Deliver?
    ensures PhaseOk(c, Do(c, d, l, a), accepts) && Do(c, d, l, a).role.Dialer?
  {
  }

  lemma DialerStep(c: Config, d: Peer, l: Peer, a: Step)
    requires c.auth.Secure() && SeparatesChallenges(c.auth) && AllValid(l.log)
    requires ListenerOk(c, l, d.log) && DialerOk(c, d, l.shake.accepts)
    ensures DialerOk(c, Do(c, d, l.log, a), l.shake.accepts)
  {
    HellosStayDistinct(c, d, l.log, a);
    if a.Deliver? {
      DialerDeliver(c, d, l, a.packet, a.src);
    } else {
      DialerPhase(c, d, l.log, l.shake.accepts, a);
    }
  }

  // -------------------------------------------------------------------- runs

  lemma {:induction false} RunShakes(c: Config, turns: seq<Turn>)
    requires c.auth.Secure() && SeparatesChallenges(c.auth)
    ensures
      var s := Run(c, turns);
      ListenerOk(c, s.listener, s.dialer.log) && DialerOk(c, s.dialer, s.listener.shake.accepts)
  {
    if turns != [] {
      var s, t := Run(c, turns[..|turns| - 1]), turns[|turns| - 1];
      RunShakes(c, turns[..|turns| - 1]);
      RunKeeps(c, turns[..|turns| - 1]);
      if t.who.Listener? {
        ListenerStep(c, s.listener, s.dialer.log, t.a);
        AcceptsGrow(c, s.listener, s.dialer.log, t.a);
        DialerSeesListener(c, s.dialer, s.listener.shake.accepts,
                           Do(c, s.listener, s.dialer.log, t.a).shake.accepts);
      } else {
        DialerStep(c, s.dialer, s.listener, t.a);
        StepGrows(c, s.dialer, s.listener.log, t.a);
        ListenerSeesDialer(c, s.listener, s.dialer.log, Do(c, s.dialer, s.listener.log, t.a).log);
      }
    }
  }

  lemma AcceptsGrow(c: Config, me: Peer, other: Log, a: Step)
    ensures me.shake.accepts <= Do(c, me, other, a).shake.accepts
  {
  }

  // ---------------------------------------------------------------- theorems

  /** The acceptance `a` is of the one HELLO that carried this challenge. */
  ghost predicate AcceptanceOf(c: Config, s: System, a: Accepted, challenge: Bytes) {
    && a.challenge == challenge
    && AcceptOk(c, s.listener.log, s.dialer.log, a)
    && forall j | 0 <= j < |s.dialer.log.issued| && s.dialer.log.issued[j].m == Hello(PROTOCOL_VERSION, challenge) ::
         j == a.hello
  }

  /**
   Handshake agreement: in every run, if the dialler is connected then the listener
   accepted the HELLO of that very attempt, recorded where it came from, and wrote the
   HELLO_ACK that answers it. And a connected listener is in session with the source and
   challenge of the HELLO it accepted last, which was the dialler's.
   */
  lemma HandshakeAgreement(c: Config, turns: seq<Turn>)
    requires c.auth.Secure() && SeparatesChallenges(c.auth)
    ensures
      var s := Run(c, turns);
      var accepts := s.listener.shake.accepts;
      && (s.dialer.shake.phase.InSession? ==>
            exists k :: 0 <= k < |accepts| && AcceptanceOf(c, s, accepts[k], s.dialer.shake.phase.challenge))
      && (s.listener.shake.phase.InSession? ==>
            && |accepts| > 0
            && var a := accepts[|accepts| - 1];
               s.listener.shake.phase == InSession(a.challenge, a.src) && AcceptanceOf(c, s, a, a.challenge))
  {
    RunShakes(c, turns);
    var s := Run(c, turns);
    var accepts := s.listener.shake.accepts;
    forall k | 0 <= k < |accepts| ensures AcceptanceOf(c, s, accepts[k], accepts[k].challenge) {
      assert AcceptOk(c, s.listener.log, s.dialer.log, accepts[k]);
      UniqueHello(s.dialer.log, accepts[k].hello);
    }
    if s.dialer.shake.phase.InSession? {
      var k :| 0 <= k < |accepts| && accepts[k].challenge == s.dialer.shake.phase.challenge;
      assert AcceptanceOf(c, s, accepts[k], s.dialer.shake.phase.challenge);
    }
  }

  /** The listener's Run does not return. */
  predicate Stays(turns: seq<Turn>) {
    Turn(Listener, EndSession) !in turns
  }

  /** While its Run does not return, a listener accepts at most one HELLO and stays with it. */
  lemma {:induction false} OneAcceptance(c: Config, turns: seq<Turn>)
    requires c.auth.Secure() && SeparatesChallenges(c.auth) && Stays(turns)
    ensures
      var l := Run(c, turns).listener;
      |l.shake.accepts| == if l.shake.phase.InSession? then 1 else 0
  {
    if turns != [] {
      var init, t := turns[..|turns| - 1], turns[|turns| - 1];
      assert t in turns;
      OneAcceptance(c, init);
      RunShakes(c, init);
      if t.who.Listener? {
        AcceptsOnce(c, Run(c, init).listener, Run(c, init).dialer.log, t.a);
      }
    }
  }

  lemma AcceptsOnce(c: Config, l: Peer, d: Log, a: Step)
    requires ListenerOk(c, l, d) && !a.EndSession?
    requires |l.shake.accepts| == if l.shake.phase.InSession? then 1 else 0
    ensures
      var l' := Do(c, l, d, a);
      |l'.shake.accepts| == if l'.shake.phase.InSession? then 1 else 0
  {
    hide Unseal, Seal;
  }

  /**
   Both ends share the session: while the listener's Run does not return, a connected
   dialler implies a listener in session for the same challenge. By `Process.NeverReconnects`
   these are the runs that occur.
   */
  lemma SharedSession(c: Config, turns: seq<Turn>)
    requires c.auth.Secure() && SeparatesChallenges(c.auth) && Stays(turns)
    ensures
      var l, d := Run(c, turns).listener.shake.phase, Run(c, turns).dialer.shake.phase;
      d.InSession? ==> l.InSession? && l.challenge == d.challenge
  {
    hide Run, Do, AcceptOk;
    RunShakes(c, turns);
    OneAcceptance(c, turns);
  }

  lemma UniqueHello(log: Log, i: nat)
    requires DistinctHellos(log) && i < |log.issued| && log.issued[i].m.Hello?
    ensures forall j | 0 <= j < |log.issued| && log.issued[j].m == log.issued[i].m :: j == i
  {
  }

  /** What a HELLO_ACK of the listener does to an attempt. */
  ghost predicate AckVerdict(c: Config, d: Peer, l: Log, a: Accepted)
    requires d.shake.phase.Attempting?
  {
    DoDeliver(c, d, l, Genuine(a.ack), c.target).shake.phase ==
    if a.challenge == d.shake.phase.challenge then InSession(d.shake.phase.challenge, c.target) else Resting
  }

  lemma AckDelivered(c: Config, d: Peer, l: Log, a: Accepted)
    requires c.auth.Secure() && SeparatesChallenges(c.auth) && AllValid(l)
    requires d.shake.phase.Attempting? && |d.shake.phase.challenge| == CHALLENGE_SIZE
    requires AcceptOk(c, l, d.log, a)
    ensures AckVerdict(c, d, l, a)
  {
    hide Unseal, Seal, OnAttempt;
    Arrival(c, l, d.rx.recvNonce, Genuine(a.ack));
    AckJoinsItsOwnAttempt(c.auth, d.shake.phase.challenge, a.challenge);
  }

  /**
   In every reachable state, a HELLO_ACK delivered to an attempt joins it exactly when the
   acceptance it answers was of this attempt's challenge; an answer to an earlier attempt
   ends the attempt instead.
   */
  lemma StaleAckNeverConnects(c: Config, turns: seq<Turn>, k: nat)
    requires c.auth.Secure() && SeparatesChallenges(c.auth)
    ensures
      var s := Run(c, turns);
      s.dialer.shake.phase.Attempting? && k < |s.listener.shake.accepts| ==>
        AckVerdict(c, s.dialer, s.listener.log, s.listener.shake.accepts[k])
  {
    RunShakes(c, turns);
    RunKeeps(c, turns);
    var s := Run(c, turns);
    if s.dialer.shake.phase.Attempting? && k < |s.listener.shake.accepts| {
      AckDelivered(c, s.dialer, s.listener.log, s.listener.shake.accepts[k]);
    }
  }

  // --------------------------------------------------- what is not listened to

  /** Junk changes nothing, in any phase. */
  lemma JunkChangesNothing(c: Config, me: Peer, other: Log, data: Bytes, src: Addr)
    requires c.auth.Secure()
    ensures Do(c, me, other, Deliver(Forged(data), src)) == me
  {
    hide Unseal, Authentic;
    if !Authentic(c.auth, data) {
      ForgeryRefused(c.auth, me.rx.recvNonce, data);
    }
  }

  /**
   Only the peer is heard: after any run, a delivery that changes a process is of a datagram
   the other process wrote, and comes from the dialled or the session's address unless the
   process is waiting for anybody.
   */
  lemma OnlyPeerHeard(c: Config, turns: seq<Turn>, who: Role, p: Packet, src: Addr)
    requires c.auth.Secure()
    ensures
      var me, from := Me(Run(c, turns), who), Other(Run(c, turns), who).log;
      Do(c, me, from, Deliver(p, src)) != me ==>
        && p.Genuine? && p.i < |from.issued| && p.i in from.wire
        && match me.shake.phase
           case Waiting => true
           case Resting => false
           case Attempting(_) => src == c.target
           case InSession(_, peer) => src == peer
  {
    hide Unseal, Seal, Authentic;
    if p.Forged? {
      JunkChangesNothing(c, Me(Run(c, turns), who), Other(Run(c, turns), who).log, p.data, src);
    }
  }

  /** Why a process says `m` in the step `a`. */
  ghost predicate Cause(me: Peer, from: Log, a: Step, m: Message) {
    match m
    case Frame(_) => me.shake.phase.InSession? && a.Pipe? && a.step.Encode?
    case Hello(_, challenge) => me.shake.phase.Resting? && a == Dial(challenge)
    case HelloAck(_, _) =>
      && me.shake.phase.Waiting? && a.Deliver? && a.packet.Genuine? && a.packet.i < |from.issued|
      && from.issued[a.packet.i].m.Hello?
    case Ping(t) => a.PingEncode? && me.mon.hand.Some? && me.mon.hand.value == t
    case Pong(t) => a.Dispatch? && me.rx.inbox.Some? && me.rx.inbox.value.m == Ping(t)
    case Bye =>
      || (me.shake.phase.InSession? && a.ByeEncode?)
      || (me.shake.phase.Waiting? && a.Deliver? && a.packet.Genuine? && a.packet.i < |from.issued|
          && !from.issued[a.packet.i].m.Hello?)
  }

  /**
   Nothing is said without a cause: after any run, a step adds at most one message to what a
   process has to send, and only a frame sendLoop encodes, a HELLO of a new attempt, the answer
   to a HELLO, the ping that is due, the echo of a PING, or a BYE that ends a session or answers
   a message that is no HELLO.
   */
  lemma NothingWithoutCause(c: Config, turns: seq<Turn>, who: Role, a: Step)
    requires c.auth.Secure()
    ensures
      var me, from := Me(Run(c, turns), who), Other(Run(c, turns), who).log;
      var issued := Do(c, me, from, a).log.issued;
      issued != me.log.issued ==>
        && |issued| == |me.log.issued| + 1 && me.log.issued <= issued
        && Cause(me, from, a, issued[|me.log.issued|].m)
  {
    RunKeeps(c, turns);
    var me, from := Me(Run(c, turns), who), Other(Run(c, turns), who).log;
    StepGrows(c, me, from, a);
    SaidBecause(c, me, from, a);
  }

  lemma SaidBecause(c: Config, me: Peer, from: Log, a: Step)
    requires c.auth.Secure() && AllValid(from)
    ensures
      var issued := Do(c, me, from, a).log.issued;
      |issued| > |me.log.issued| ==> Cause(me, from, a, issued[|me.log.issued|].m)
  {
    hide Unseal, Seal;
    if a.Deliver? && Deliverable(c, from, a.packet) {
      Arrival(c, from, me.rx.recvNonce, a.packet);
    }
  }

  /** After any run, a waiting listener answers a message that is no HELLO with a BYE and waits on. */
  lemma WaitingAsks(c: Config, turns: seq<Turn>, i: nat, src: Addr)
    requires c.auth.Secure()
    requires
      var l, d := Run(c, turns).listener, Run(c, turns).dialer.log;
      && l.shake.phase.Waiting? && |l.log.issued| + 1 < TWO_64 && i < |d.issued| && i in d.wire
      && !d.issued[i].m.Hello? && (l.rx.recvNonce <= i || d.issued[i].m.HelloAck?)
    ensures
      var l, d := Run(c, turns).listener, Run(c, turns).dialer.log;
      var l' := Do(c, l, d, Deliver(Genuine(i), src));
      && l'.log == Say(l.log, Bye, 0, true) && |l.log.issued| in l'.log.wire && l'.shake == l.shake
      && l'.rx.recvNonce == if d.issued[i].m.HelloAck? then l.rx.recvNonce else i + 1
  {
    hide Unseal, Seal;
    RunKeeps(c, turns);
    Arrival(c, Run(c, turns).dialer.log, Run(c, turns).listener.rx.recvNonce, Genuine(i));
  }

  /** After any run, an attempt reads past a message of the listener that is no HELLO_ACK. */
  lemma AttemptSkips(c: Config, turns: seq<Turn>, i: nat)
    requires c.auth.Secure()
    requires
      var d, l := Run(c, turns).dialer, Run(c, turns).listener.log;
      && d.shake.phase.Attempting? && |d.log.issued| + 1 < TWO_64 && i < |l.issued| && i in l.wire
      && !l.issued[i].m.Handshake() && d.rx.recvNonce <= i
    ensures
      var d, l := Run(c, turns).dialer, Run(c, turns).listener.log;
      var d' := Do(c, d, l, Deliver(Genuine(i), c.target));
      d'.(rx := d.rx) == d && d'.rx.recvNonce == i + 1 && d'.rx.inbox == d.rx.inbox && d'.rx.handled == d.rx.handled
  {
    hide Unseal, Seal;
    RunKeeps(c, turns);
    Arrival(c, Run(c, turns).listener.log, Run(c, turns).dialer.rx.recvNonce, Genuine(i));
  }

  /** What a second bridge would start from: fresh queues, monitor and receive nonce, on the same codec. */
  lemma EndSessionRenews(c: Config, me: Peer, other: Log)
    requires me.shake.phase.InSession? && |me.log.issued| + 1 < TWO_64
    ensures
      var me' := Do(c, me, other, EndSession);
      && me'.shake.phase == (if me.role.Listener? then Waiting else Resting)
      && me'.log == me.log && me'.rx == RX_START && Captured(me') == Captured(me) && me'.tx.pipe == Pipeline.TX_START
      && me'.mon.ping == PingMonitor.IDLE && me'.mon.hand.None? && me'.mon.samples == []
  {
    assert Captured(me) + [] == Captured(me);
  }

  /** Between attempts the dialler's receive nonce is zero. */
  lemma {:induction false} RestingReset(c: Config, turns: seq<Turn>)
    requires c.auth.Secure()
    ensures
      var d := Run(c, turns).dialer;
      d.role.Dialer? && !d.shake.phase.Waiting? && (d.shake.phase.Resting? ==> d.rx.recvNonce == 0)
  {
    if turns != [] {
      var init, t := turns[..|turns| - 1], turns[|turns| - 1];
      RestingReset(c, init);
      if t.who.Dialer? {
        RestingStep(c, Run(c, init).dialer, Run(c, init).listener.log, t.a);
      }
    }
  }

  lemma RestingStep(c: Config, d: Peer, l: Log, a: Step)
    requires d.role.Dialer? && !d.shake.phase.Waiting? && (d.shake.phase.Resting? ==> d.rx.recvNonce == 0)
    ensures
      var d' := Do(c, d, l, a);
      d'.role.Dialer? && !d'.shake.phase.Waiting? && (d'.shake.phase.Resting? ==> d'.rx.recvNonce == 0)
  {
    hide Unseal, Seal;
  }
}
