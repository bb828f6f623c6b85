/**
 Two processes, one listening and one dialling, over a network that loses, repeats and
 reorders datagrams and adds datagrams whose tag does not verify.

 Each process keeps one codec for its whole life (cmd/xbslink-ng/main.go). The goroutines
 of its bridge interleave freely: a step below is one locked section or one channel
 operation of one of them. A step whose goroutine is not at that point, or that would draw
 nonce 2^64, changes nothing.

 Module Process proves that a process never starts a second bridge. The step EndSession
 allows one all the same: it is what the reconnection loop would do if Run returned to it,
 and what every run keeps is proved with it.

 A datagram is named by its position in its sender's log of encoded messages; the
 message at position i carries nonce i + 1. A step changes one process only.
 */
module Link {
  import opened ByteOrder
  import opened Protocol
  import opened Wrappers
  import opened Transport
  import Pipeline
  import PingMonitor

  datatype Config = Config(auth: Auth, target: Addr)   // `target` is the address dialled

  datatype Role = Listener | Dialer

  // ------------------------------------------------------------------- state

  /** An encoded message; for a frame, its position among all frames the process captured. */
  datatype Issue = Issue(m: Message, origin: nat)

  /** Everything the codec has encoded, and which of it has been written to the socket. */
  datatype Log = Log(issued: seq<Issue>, wire: set<nat>)

  /** recvLoop: the decoded message not yet dispatched, and the frames dispatched in this session. */
  datatype Inbox = Inbox(from: nat, m: Message)
  datatype Rx = Rx(recvNonce: U64, inbox: Option<Inbox>, got: seq<nat>, handled: seq<Bytes>)

  /** The transmit queues, after the frames captured by earlier bridges. */
  datatype Tx = Tx(past: seq<Bytes>, pipe: Pipeline.Tx, codedAs: nat)

  /** pingLoop and handlePong, on the process's own clock. */
  datatype Sample = Sample(timestamp: I64, rtt: int)
  datatype Mon = Mon(ping: PingMonitor.Monitor, hand: Option<I64>, lastPing: int, clock: int, samples: seq<Sample>)

  datatype Phase =
    | Waiting                                        // in WaitForPeer
    | Resting                                        // between attempts
    | Attempting(challenge: Bytes)                   // in attemptHandshake
    | InSession(challenge: Bytes, peer: Addr)

  /** A HELLO the listener accepted: its source and challenge, its position, and that of the answer. */
  datatype Accepted = Accepted(src: Addr, challenge: Bytes, hello: nat, ack: nat)
  datatype Shake = Shake(phase: Phase, accepts: seq<Accepted>)

  datatype Peer = Peer(role: Role, log: Log, rx: Rx, tx: Tx, mon: Mon, shake: Shake)

  datatype System = System(listener: Peer, dialer: Peer)

  const RX_START := Rx(0, None, [], [])
  const MON_START := Mon(PingMonitor.IDLE, None, 0, 0, [])

  function Start(role: Role): Peer {
    Peer(role, Log([], {}), RX_START, Tx([], Pipeline.TX_START, 0), MON_START,
         Shake(if role.Listener? then Waiting else Resting, []))
  }

  /** Every frame the process has captured, across its bridges. */
  function Captured(p: Peer): seq<Bytes> {
    p.tx.past + p.tx.pipe.captured
  }

  // ------------------------------------------------------------------- steps

  datatype Packet =
    | Genuine(i: nat)          // the other process's datagram number i
    | Forged(data: Bytes)      // any bytes whose tag does not verify

  datatype Step =
    | Pipe(step: Pipeline.TxStep)             // captureLoop, sendLoop
    | PingTick(now: I64)                      // sendPing, locked section
    | PingEncode                              // sendPing, after the lock
    | ByeEncode                               // SendBye
    | Transmit(i: nat)                        // a socket write of an encoded datagram
    | Deliver(packet: Packet, src: Addr)      // a socket read, and Decode
    | Dispatch(at: int)                       // recvLoop's switch
    | Dial(challenge: Bytes)                  // a new handshake attempt, its challenge unused so far
    | GiveUp                                  // a failed attempt
    | EndSession                              // Run returns to the reconnection loop

  function Say(log: Log, m: Message, origin: nat, written: bool): Log {
    Log(log.issued + [Issue(m, origin)], if written then log.wire + {|log.issued|} else log.wire)
  }

  function DoPipe(me: Peer, step: Pipeline.TxStep): Peer {
    var pipe := me.tx.pipe;
    var pipe' := Pipeline.TxDo(pipe, step);
    var me' := me.(tx := me.tx.(pipe := pipe'));
    if !me.shake.phase.InSession? then me
    else if pipe'.encoded != pipe.encoded && pipe.hand.Taken? && pipe.hand.frame < |pipe.captured| then
      me.(tx := me.tx.(pipe := pipe', codedAs := |me.log.issued|),
          log := Say(me.log, Frame(pipe.captured[pipe.hand.frame]), |me.tx.past| + pipe.hand.frame, false))
    else if pipe'.sent != pipe.sent then
      me'.(log := me.log.(wire := me.log.wire + {me.tx.codedAs}))
    else me'
  }

  function DoPingTick(me: Peer, now: I64): Peer {
    if !me.shake.phase.InSession? || me.mon.hand.Some? || now <= me.mon.clock || now == 0 then me
    else
      var (ping, timeout) := PingMonitor.SendPing(me.mon.ping, now);
      if timeout then me.(mon := me.mon.(ping := ping, clock := now))
      else me.(mon := me.mon.(ping := ping, clock := now, hand := Some(now), lastPing := now))
  }

  function DoPingEncode(me: Peer): Peer {
    if me.mon.hand.None? then me
    else me.(mon := me.mon.(hand := None), log := Say(me.log, Ping(me.mon.hand.value), 0, false))
  }

  function DoByeEncode(me: Peer): Peer {
    if me.shake.phase.InSession? then me.(log := Say(me.log, Bye, 0, false)) else me
  }

  function DoTransmit(me: Peer, i: nat): Peer {
    if i < |me.log.issued| then me.(log := me.log.(wire := me.log.wire + {i})) else me
  }

  /** The network delivers what was written, or junk. */
  predicate Deliverable(c: Config, from: Log, p: Packet) {
    match p
    case Genuine(i) => i < |from.issued| && i in from.wire && i + 1 < TWO_64
    case Forged(data) => !Authentic(c.auth, data)
  }

  function Contents(c: Config, from: Log, p: Packet): Bytes
    requires Deliverable(c, from, p)
  {
    match p
    case Genuine(i) => Seal(c.auth, i + 1, from.issued[i].m)
    case Forged(data) => data
  }

  function Position(p: Packet): nat {
    if p.Genuine? then p.i else 0
  }

  /** A fresh bridge: empty queues, no outstanding ping, no samples. */
  function Renew(me: Peer, phase: Phase): Peer {
    me.(rx := RX_START,
        tx := Tx(Captured(me), Pipeline.TX_START, 0),
        mon := me.mon.(ping := PingMonitor.IDLE, hand := None, samples := []),
        shake := me.shake.(phase := phase))
  }

  /** WaitForPeer's reaction to a datagram. */
  function Welcomed(c: Config, me: Peer, p: Packet, src: Addr, r: Result<Message>, nonce: U64): Peer {
    match OnWaiting(r)
    case Ignore => me.(rx := me.rx.(recvNonce := nonce))
    case AskForHello => me.(rx := me.rx.(recvNonce := nonce), log := Say(me.log, Bye, 0, true))
    case Accept(challenge) =>
      me.(rx := me.rx.(recvNonce := 0),
          log := Say(me.log, HelloAck(PROTOCOL_VERSION, c.auth.Response(challenge)), 0, true),
          shake := Shake(InSession(challenge, src),
                         me.shake.accepts + [Accepted(src, challenge, Position(p), |me.log.issued|)]))
  }

  /** attemptHandshake's reaction to a datagram. */
  function Answered(c: Config, me: Peer, challenge: Bytes, r: Result<Message>, nonce: U64): Peer {
    match OnAttempt(c.auth, challenge, r)
    case Skip => me.(rx := me.rx.(recvNonce := nonce))
    case Refuse => me.(rx := me.rx.(recvNonce := 0), shake := me.shake.(phase := Resting))
    case Join => me.(rx := me.rx.(recvNonce := 0), shake := me.shake.(phase := InSession(challenge, c.target)))
  }

  /** recvLoop's Decode. */
  function Received(me: Peer, p: Packet, r: Result<Message>, nonce: U64): Peer {
    if r.Ok? then me.(rx := me.rx.(recvNonce := nonce, inbox := Some(Inbox(Position(p), r.value))))
    else me.(rx := me.rx.(recvNonce := nonce))
  }

  function DoDeliver(c: Config, me: Peer, from: Log, p: Packet, src: Addr): Peer {
    if !Deliverable(c, from, p) then me
    else
      var (r, nonce) := Unseal(c.auth, me.rx.recvNonce, Contents(c, from, p));
      match me.shake.phase
      case Waiting => Welcomed(c, me, p, src, r, nonce)
      case Resting => me
      case Attempting(challenge) => if src == c.target then Answered(c, me, challenge, r, nonce) else me
      case InSession(_, peer) => if src == peer && me.rx.inbox.None? then Received(me, p, r, nonce) else me
  }

  function DoDispatch(me: Peer, now: int): Peer {
    if me.rx.inbox.None? || now < me.mon.clock then me
    else
      var Inbox(from, m) := me.rx.inbox.value;
      var me' := me.(rx := me.rx.(inbox := None));
      match m
      case Frame(f) => me.(rx := me.rx.(inbox := None, got := me.rx.got + [from], handled := me.rx.handled + [f]))
      case Ping(t) => me'.(log := Say(me.log, Pong(t), 0, false))
      case Pong(t) =>
        var (ping, rtt) := PingMonitor.HandlePong(me.mon.ping, t, now);
        if rtt.None? then me'
        else me'.(mon := me.mon.(ping := ping, clock := now, samples := me.mon.samples + [Sample(t, rtt.value)]))
      case _ => me'
  }

  predicate FreshChallenge(log: Log, challenge: Bytes) {
    forall i | 0 <= i < |log.issued| :: log.issued[i].m != Hello(PROTOCOL_VERSION, challenge)
  }

  function DoDial(me: Peer, challenge: Bytes): Peer {
    if me.shake.phase.Resting? && |challenge| == CHALLENGE_SIZE && FreshChallenge(me.log, challenge) then
      me.(log := Say(me.log, Hello(PROTOCOL_VERSION, challenge), 0, false),
          shake := me.shake.(phase := Attempting(challenge)))
    else me
  }

  function DoGiveUp(me: Peer): Peer {
    if me.shake.phase.Attempting? then
      me.(rx := me.rx.(recvNonce := 0), shake := me.shake.(phase := Resting))
    else me
  }

  function DoEndSession(me: Peer): Peer {
    if me.shake.phase.InSession? then Renew(me, if me.role.Listener? then Waiting else Resting) else me
  }

  function Do(c: Config, me: Peer, other: Log, a: Step): Peer {
    if |me.log.issued| + 1 >= TWO_64 then me
    else
      match a
      case Pipe(step) => DoPipe(me, step)
      case PingTick(now) => DoPingTick(me, now)
      case PingEncode => DoPingEncode(me)
      case ByeEncode => DoByeEncode(me)
      case Transmit(i) => DoTransmit(me, i)
      case Deliver(p, src) => DoDeliver(c, me, other, p, src)
      case Dispatch(now) => DoDispatch(me, now)
      case Dial(challenge) => DoDial(me, challenge)
      case GiveUp => DoGiveUp(me)
      case EndSession => DoEndSession(me)
  }

  datatype Turn = Turn(who: Role, a: Step)

  function Run(c: Config, turns: seq<Turn>): System {
    if turns == [] then System(Start(Listener), Start(Dialer))
    else
      var s, t := Run(c, turns[..|turns| - 1]), turns[|turns| - 1];
      if t.who.Listener? then s.(listener := Do(c, s.listener, s.dialer.log, t.a))
      else s.(dialer := Do(c, s.dialer, s.listener.log, t.a))
  }

  function Me(s: System, who: Role): Peer {
    if who.Listener? then s.listener else s.dialer
  }

  function Other(s: System, who: Role): Peer {
    if who.Listener? then s.dialer else s.listener
  }
}
