/**
 What the two processes can do when the network delivers promptly: exactly when the dialler
 can still connect, and that a session passes on what is captured.
 */
module LinkProgress {
  import opened ByteOrder
  import opened Protocol
  import opened Wrappers
  import opened Transport
  import opened Link
  import opened LinkFrames
  import opened LinkHandshake
  import opened LinkPings
  import PingMonitor
  import opened Sequences
  import Pipeline

  lemma RunNext(c: Config, turns: seq<Turn>, who: Role, a: Step)
    ensures
      var s, s' := Run(c, turns), Run(c, turns + [Turn(who, a)]);
      Me(s', who) == Do(c, Me(s, who), Other(s, who).log, a) && Other(s', who) == Other(s, who)
  {
    assert (turns + [Turn(who, a)])[..|turns|] == turns;
  }

  /** A written HELLO is accepted by a waiting listener, whatever its receive nonce. */
  lemma HelloAccepted(c: Config, l: Peer, from: Log, i: nat, challenge: Bytes, src: Addr)
    requires c.auth.Secure() && AllValid(from) && l.shake.phase.Waiting?
    requires i < |from.issued| && i in from.wire && from.issued[i].m == Hello(PROTOCOL_VERSION, challenge)
    ensures
      var l' := DoDeliver(c, l, from, Genuine(i), src);
      && l'.shake.phase == InSession(challenge, src)
      && l'.rx == l.rx.(recvNonce := 0)
      && l'.log == Say(l.log, HelloAck(PROTOCOL_VERSION, c.auth.Response(challenge)), 0, true)
  {
    hide Unseal, Seal;
    Arrival(c, from, l.rx.recvNonce, Genuine(i));
  }

  /** The answer to an attempt's challenge joins it, whatever its receive nonce. */
  lemma AckJoins(c: Config, d: Peer, from: Log, i: nat, challenge: Bytes)
    requires c.auth.Secure() && AllValid(from) && |challenge| == CHALLENGE_SIZE
    requires d.shake.phase == Attempting(challenge)
    requires i < |from.issued| && i in from.wire
    requires from.issued[i].m == HelloAck(PROTOCOL_VERSION, c.auth.Response(challenge))
    ensures
      var d' := DoDeliver(c, d, from, Genuine(i), c.target);
      d'.shake.phase == InSession(challenge, c.target) && d'.rx == d.rx.(recvNonce := 0)
  {
    hide Unseal, Seal;
    Arrival(c, from, d.rx.recvNonce, Genuine(i));
  }

  /** A dialled and transmitted HELLO. */
  lemma HelloSent(c: Config, d: Peer, other: Log, challenge: Bytes)
    requires |challenge| == CHALLENGE_SIZE && d.shake.phase.Resting? && FreshChallenge(d.log, challenge)
    requires AllValid(d.log) && |d.log.issued| + 2 < TWO_64
    ensures
      var n := |d.log.issued|;
      var d2 := Do(c, Do(c, d, other, Dial(challenge)), other, Transmit(n));
      && d2.shake.phase == Attempting(challenge) && d2.rx == d.rx
      && |d2.log.issued| == n + 1 && n in d2.log.wire && d2.log.issued[n].m == Hello(PROTOCOL_VERSION, challenge)
      && AllValid(d2.log)
  {
  }

  /** Both sides of a prompt handshake. */
  lemma HandshakeStates(c: Config, l: Peer, d2: Peer, hello: nat, challenge: Bytes, src: Addr)
    requires c.auth.Secure() && |challenge| == CHALLENGE_SIZE && AllValid(l.log) && AllValid(d2.log)
    requires l.shake.phase.Waiting? && d2.shake.phase == Attempting(challenge)
    requires |l.log.issued| + 2 < TWO_64 && |d2.log.issued| + 1 < TWO_64
    requires hello < |d2.log.issued| && hello in d2.log.wire
    requires d2.log.issued[hello].m == Hello(PROTOCOL_VERSION, challenge)
    ensures
      var l' := Do(c, l, d2.log, Deliver(Genuine(hello), src));
      var d' := Do(c, d2, l'.log, Deliver(Genuine(|l.log.issued|), c.target));
      && l'.shake.phase == InSession(challenge, src) && l'.rx == l.rx.(recvNonce := 0)
      && d'.shake.phase == InSession(challenge, c.target) && d'.rx == d2.rx.(recvNonce := 0)
  {
    HelloAccepted(c, l, d2.log, hello, challenge, src);
    var l' := Do(c, l, d2.log, Deliver(Genuine(hello), src));
    assert AllValid(l'.log);
    AckJoins(c, d2, l'.log, |l.log.issued|, challenge);
  }

  /** The four turns of a handshake over a prompt network. */
  function HandshakeTurns(s: System, c: Config, challenge: Bytes, src: Addr): seq<Turn> {
    var hello, ack := |s.dialer.log.issued|, |s.listener.log.issued|;
    [Turn(Dialer, Dial(challenge)), Turn(Dialer, Transmit(hello)),
     Turn(Listener, Deliver(Genuine(hello), src)), Turn(Dialer, Deliver(Genuine(ack), c.target))]
  }

  lemma RunFour(c: Config, turns: seq<Turn>, t1: Turn, t2: Turn, t3: Turn, t4: Turn)
    requires t1.who == t2.who == t4.who == Dialer && t3.who == Listener
    ensures
      var s := Run(c, turns);
      var d2 := Do(c, Do(c, s.dialer, s.listener.log, t1.a), s.listener.log, t2.a);
      var l' := Do(c, s.listener, d2.log, t3.a);
      Run(c, turns + [t1, t2, t3, t4]) == System(l', Do(c, d2, l'.log, t4.a))
  {
    hide Do;
    RunNext(c, turns, Dialer, t1.a);
    RunNext(c, turns + [t1], Dialer, t2.a);
    RunNext(c, turns + [t1] + [t2], Listener, t3.a);
    RunNext(c, turns + [t1] + [t2] + [t3], Dialer, t4.a);
    assert turns + [t1, t2, t3, t4] == turns + [t1] + [t2] + [t3] + [t4];
  }

  /**
   After any run in which the listener still waits and the dialler is between attempts,
   however many attempts have failed, an unused challenge and four prompt turns put both in
   session, each with a zero receive nonce and nothing handled yet.
   */
  lemma ConnectsAfterFailures(c: Config, turns: seq<Turn>, challenge: Bytes, src: Addr)
    requires c.auth.Secure() && |challenge| == CHALLENGE_SIZE
    requires
      var s := Run(c, turns);
      && s.listener.shake.phase.Waiting? && s.dialer.shake.phase.Resting?
      && FreshChallenge(s.dialer.log, challenge)
      && |s.dialer.log.issued| + 2 < TWO_64 && |s.listener.log.issued| + 2 < TWO_64
    ensures
      var t := Run(c, turns + HandshakeTurns(Run(c, turns), c, challenge, src));
      && t.listener.shake.phase == InSession(challenge, src)
      && t.dialer.shake.phase == InSession(challenge, c.target)
      && t.listener.rx == RX_START && t.dialer.rx == RX_START
  {
    hide Do;
    var s := Run(c, turns);
    var ts := HandshakeTurns(s, c, challenge, src);
    var hello := |s.dialer.log.issued|;
    RunKeeps(c, turns);
    HelloSent(c, s.dialer, s.listener.log, challenge);
    var d2 := Do(c, Do(c, s.dialer, s.listener.log, Dial(challenge)), s.listener.log, Transmit(hello));
    HandshakeStates(c, s.listener, d2, hello, challenge, src);
    RunFour(c, turns, ts[0], ts[1], ts[2], ts[3]);
  }

  /**
   What reconnection would be, had Run returned to its loop: after any run with both in
   session, both ends renewed, an unused challenge and four prompt turns put both in a session
   again that starts from nothing but the codecs and the captured frames.
   */
  lemma ConnectsAgain(c: Config, turns: seq<Turn>, challenge: Bytes, src: Addr)
    requires c.auth.Secure() && SeparatesChallenges(c.auth) && |challenge| == CHALLENGE_SIZE
    requires
      var s := Run(c, turns);
      && s.listener.shake.phase.InSession? && s.dialer.shake.phase.InSession?
      && FreshChallenge(s.dialer.log, challenge)
      && |s.dialer.log.issued| + 2 < TWO_64 && |s.listener.log.issued| + 2 < TWO_64
    ensures
      var s, ended := Run(c, turns), turns + [Turn(Listener, EndSession)] + [Turn(Dialer, EndSession)];
      var s1 := Run(c, ended);
      var t := Run(c, ended + HandshakeTurns(s1, c, challenge, src));
      && s1.listener.mon.ping == s1.dialer.mon.ping == PingMonitor.IDLE
      && Captured(s1.listener) == Captured(s.listener) && Captured(s1.dialer) == Captured(s.dialer)
      && t.listener.shake.phase == InSession(challenge, src) && t.dialer.shake.phase == InSession(challenge, c.target)
      && t.listener.rx == RX_START && t.dialer.rx == RX_START
  {
    hide Do;
    var s, e1 := Run(c, turns), turns + [Turn(Listener, EndSession)];
    RunShakes(c, turns);
    EndSessionRenews(c, s.listener, s.dialer.log);
    RunNext(c, turns, Listener, EndSession);
    EndSessionRenews(c, s.dialer, Run(c, e1).listener.log);
    RunNext(c, e1, Dialer, EndSession);
    ConnectsAfterFailures(c, e1 + [Turn(Dialer, EndSession)], challenge, src);
  }

  // -------------------------------------------------- when a connection can come

  predicate Connects(c: Config, turns: seq<Turn>, more: seq<Turn>) {
    Run(c, turns + more).dialer.shake.phase.InSession?
  }

  /** The listener has answered the challenge of the attempt under way. */
  ghost predicate AnswerExists(s: System) {
    s.dialer.shake.phase.Attempting? && AcceptedChallenge(s.listener.shake.accepts, s.dialer.shake.phase.challenge)
  }

  /** The listener is in session, and not on account of the attempt under way. */
  ghost predicate Stranded(s: System) {
    s.listener.shake.phase.InSession? && !s.dialer.shake.phase.InSession? && !AnswerExists(s)
  }

  /** In session the listener answers no HELLO. */
  lemma ListenerInSession(c: Config, l: Peer, d: Log, a: Step)
    requires l.shake.phase.InSession? && !a.EndSession?
    ensures Do(c, l, d, a).shake == l.shake
  {
  }

  /** A new attempt uses a challenge nobody has answered, and only an answer joins one. */
  lemma DialerStranded(c: Config, s: System, a: Step)
    requires c.auth.Secure() && SeparatesChallenges(c.auth) && Stranded(s)
    requires ListenerOk(c, s.listener, s.dialer.log) && DialerOk(c, s.dialer, s.listener.shake.accepts)
    requires AllValid(s.listener.log)
    ensures Stranded(s.(dialer := Do(c, s.dialer, s.listener.log, a)))
  {
    hide Unseal, Seal;
    var l, d := s.listener, s.dialer;
    if a.Dial? {
      forall k | 0 <= k < |l.shake.accepts|
        ensures FreshChallenge(d.log, a.challenge) ==> l.shake.accepts[k].challenge != a.challenge
      {
        assert AcceptOk(c, l.log, d.log, l.shake.accepts[k]);
      }
    } else if a.Deliver? && Deliverable(c, l.log, a.packet) && d.shake.phase.Attempting? {
      JoinIsAnswer(c, d, l, a.packet);
    }
  }

  lemma StrandedStep(c: Config, turns: seq<Turn>, t: Turn)
    requires c.auth.Secure() && SeparatesChallenges(c.auth) && Stranded(Run(c, turns))
    requires t != Turn(Listener, EndSession)
    ensures Stranded(Run(c, turns + [t]))
  {
    hide Do, Run, ListenerOk, DialerOk, AllValid;
    var s := Run(c, turns);
    RunKeeps(c, turns);
    RunShakes(c, turns);
    RunNext(c, turns, t.who, t.a);
    if t.who.Listener? {
      ListenerInSession(c, s.listener, s.dialer.log, t.a);
    } else {
      DialerStranded(c, s, t.a);
    }
  }

  lemma {:induction false} StrandedForever(c: Config, turns: seq<Turn>, more: seq<Turn>)
    requires c.auth.Secure() && SeparatesChallenges(c.auth) && Stranded(Run(c, turns)) && Stays(more)
    ensures Stranded(Run(c, turns + more))
    decreases |more|
  {
    hide Run, Stranded;
    if more == [] {
      assert turns + more == turns;
    } else {
      var init, t := more[..|more| - 1], more[|more| - 1];
      assert t in more;
      StrandedForever(c, turns, init);
      StrandedStep(c, turns + init, t);
      assert turns + more == turns + init + [t];
    }
  }

  /** It does happen: the listener accepts the first HELLO, and its answer is lost. */
  lemma LostAckStrands(c: Config, challenge: Bytes, src: Addr) returns (turns: seq<Turn>)
    requires c.auth.Secure() && |challenge| == CHALLENGE_SIZE
    ensures Stays(turns) && Stranded(Run(c, turns))
  {
    hide Do;
    var s := Run(c, []);
    var dial, send := Dial(challenge), Transmit(0);
    var d2 := Do(c, Do(c, s.dialer, s.listener.log, dial), s.listener.log, send);
    var hello := Deliver(Genuine(0), src);
    turns := [Turn(Dialer, dial), Turn(Dialer, send), Turn(Listener, hello), Turn(Dialer, GiveUp)];
    HelloSent(c, s.dialer, s.listener.log, challenge);
    HandshakeStates(c, s.listener, d2, 0, challenge, src);
    RunFour(c, [], turns[0], turns[1], turns[2], turns[3]);
    assert [] + turns == turns;
    GaveUp(c, d2, Do(c, s.listener, d2.log, hello).log);
  }

  lemma GaveUp(c: Config, d: Peer, l: Log)
    requires d.shake.phase.Attempting? && |d.log.issued| + 1 < TWO_64
    ensures Do(c, d, l, GiveUp).shake.phase.Resting?
  {
  }

  /** An answer that exists can be delivered. */
  lemma AnswerConnects(c: Config, turns: seq<Turn>) returns (more: seq<Turn>)
    requires c.auth.Secure() && SeparatesChallenges(c.auth) && AnswerExists(Run(c, turns))
    requires |Run(c, turns).dialer.log.issued| + 1 < TWO_64
    ensures Stays(more) && Connects(c, turns, more)
  {
    hide AckVerdict;
    var s := Run(c, turns);
    var accepts := s.listener.shake.accepts;
    var k: nat :| k < |accepts| && accepts[k].challenge == s.dialer.shake.phase.challenge;
    var answer := Deliver(Genuine(accepts[k].ack), c.target);
    more := [Turn(Dialer, answer)];
    StaleAckNeverConnects(c, turns, k);
    AckConnects(c, s.dialer, s.listener.log, accepts[k]);
    RunNext(c, turns, Dialer, answer);
  }

  lemma AckConnects(c: Config, d: Peer, l: Log, a: Accepted)
    requires d.shake.phase.Attempting? && AckVerdict(c, d, l, a) && a.challenge == d.shake.phase.challenge
    requires |d.log.issued| + 1 < TWO_64
    ensures Do(c, d, l, Deliver(Genuine(a.ack), c.target)).shake.phase.InSession?
  {
  }

  /** Some number up to the length of a list is not in the list. */
  lemma Missing(u: seq<nat>) returns (k: nat)
    ensures k <= |u| && k !in u
    decreases |u|
  {
    if |u| !in u {
      return |u|;
    }
    var i: nat :| i < |u| && u[i] == |u|;
    k := Missing(u[..i] + u[i + 1..]);
    assert u == u[..i] + [|u|] + u[i + 1..];
  }

  /** Fewer than 2^64 messages leave a challenge unused. */
  lemma UnusedChallenge(log: Log) returns (challenge: Bytes)
    requires |log.issued| < TWO_64
    ensures |challenge| == CHALLENGE_SIZE && FreshChallenge(log, challenge)
  {
    var used := seq(|log.issued|, i requires 0 <= i < |log.issued| =>
      var m := log.issued[i].m; if m.Hello? && |m.challenge| == 16 then Value(m.challenge[8..]) else 0);
    var k := Missing(used);
    challenge := BigEndian(0, 8) + BigEndian(k, 8);
    assert challenge[8..] == BigEndian(k, 8);
    Words64(k, BigEndian(k, 8));
    forall i | 0 <= i < |log.issued| ensures log.issued[i].m != Hello(PROTOCOL_VERSION, challenge) {
      assert used[i] != k;
    }
  }

  /** A listener that waits can be reached by the next attempt. */
  lemma WaitingConnects(c: Config, turns: seq<Turn>) returns (more: seq<Turn>)
    requires c.auth.Secure() && SeparatesChallenges(c.auth)
    requires
      var s := Run(c, turns);
      && s.listener.shake.phase.Waiting? && !s.dialer.shake.phase.InSession?
      && |s.dialer.log.issued| + 2 < TWO_64 && |s.listener.log.issued| + 2 < TWO_64
    ensures Stays(more) && Connects(c, turns, more)
  {
    var s := Run(c, turns);
    RunShakes(c, turns);
    var failed := if s.dialer.shake.phase.Attempting? then [Turn(Dialer, GiveUp)] else [];
    if failed == [] {
      assert turns + failed == turns;
    } else {
      RunNext(c, turns, Dialer, GiveUp);
    }
    var challenge := UnusedChallenge(s.dialer.log);
    var ts := HandshakeTurns(Run(c, turns + failed), c, challenge, c.target);
    ConnectsAfterFailures(c, turns + failed, challenge, c.target);
    more := failed + ts;
    assert turns + more == turns + failed + ts;
  }

  /**
   When the dialler can still connect, for as long as the listener's Run does not return:
   exactly when the listener waits, or has answered the attempt under way. So once the
   listener is in session and its answer did not reach that attempt in time, no schedule and
   no number of retries connects the dialler.
   */
  lemma ConnectableExactly(c: Config, turns: seq<Turn>)
    requires c.auth.Secure() && SeparatesChallenges(c.auth)
    requires
      var s := Run(c, turns);
      && !s.dialer.shake.phase.InSession?
      && |s.dialer.log.issued| + 2 < TWO_64 && |s.listener.log.issued| + 2 < TWO_64
    ensures (exists more :: Stays(more) && Connects(c, turns, more)) <==>
              Run(c, turns).listener.shake.phase.Waiting? || AnswerExists(Run(c, turns))
  {
    hide Run, AnswerExists;
    var s := Run(c, turns);
    RunShakes(c, turns);
    if AnswerExists(s) {
      var more := AnswerConnects(c, turns);
    } else if s.listener.shake.phase.Waiting? {
      var more := WaitingConnects(c, turns);
    } else {
      forall more | Stays(more) ensures !Connects(c, turns, more) {
        StrandedForever(c, turns, more);
      }
    }
  }

  // ------------------------------------------------------------------ frames

  function Opposite(who: Role): Role {
    if who.Listener? then Dialer else Listener
  }

  /** Steps of one process while the other one stands still. */
  function DoAll(c: Config, me: Peer, other: Log, steps: seq<Step>): Peer
    decreases |steps|
  {
    if steps == [] then me else DoAll(c, Do(c, me, other, steps[0]), other, steps[1..])
  }

  function By(who: Role, steps: seq<Step>): seq<Turn> {
    seq(|steps|, i requires 0 <= i < |steps| => Turn(who, steps[i]))
  }

  lemma {:induction false} RunAll(c: Config, turns: seq<Turn>, who: Role, steps: seq<Step>)
    ensures
      var s, s' := Run(c, turns), Run(c, turns + By(who, steps));
      Me(s', who) == DoAll(c, Me(s, who), Other(s, who).log, steps) && Other(s', who) == Other(s, who)
    decreases |steps|
  {
    hide Do;
    if steps == [] {
      assert turns + By(who, steps) == turns;
    } else {
      RunNext(c, turns, who, steps[0]);
      RunAll(c, turns + [Turn(who, steps[0])], who, steps[1..]);
      assert turns + By(who, steps) == turns + [Turn(who, steps[0])] + By(who, steps[1..]);
    }
  }

  /** The send queue after capturing `frames`: what does not fit is dropped. */
  function Offered(t: Pipeline.Tx, frames: seq<Bytes>): seq<Bytes>
    requires Below(t.queue, |t.captured|)
  {
    var room := if |t.queue| < Pipeline.CAPACITY then Pipeline.CAPACITY - |t.queue| else 0;
    Pipeline.Queued(t) + if |frames| <= room then frames else frames[..room]
  }

  /** The frames EncodeFrame accepts. */
  function Legal(frames: seq<Bytes>): seq<Bytes> {
    if frames == [] then []
    else (if Frame(frames[0]).Valid() then [frames[0]] else []) + Legal(frames[1..])
  }

  function Captures(frames: seq<Bytes>): seq<Step> {
    seq(|frames|, i requires 0 <= i < |frames| => Pipe(Pipeline.Capture(frames[i])))
  }

  /** sendLoop passes `n` frames to the socket. */
  function Sends(n: nat): seq<Step> {
    if n == 0 then []
    else [Pipe(Pipeline.Dequeue), Pipe(Pipeline.Encode), Pipe(Pipeline.Write(true))] + Sends(n - 1)
  }

  /** recvLoop reads and dispatches `n` datagrams, from number `first`. */
  function Takes(first: nat, n: nat, peer: Addr, clock: int): seq<Step>
    decreases n
  {
    if n == 0 then []
    else [Deliver(Genuine(first), peer), Dispatch(clock)] + Takes(first + 1, n - 1, peer, clock)
  }

  lemma DoTwo(c: Config, me: Peer, other: Log, a1: Step, a2: Step, rest: seq<Step>)
    ensures DoAll(c, me, other, [a1, a2] + rest) == DoAll(c, Do(c, Do(c, me, other, a1), other, a2), other, rest)
  {
    hide Do;
    assert ([a1, a2] + rest)[1..] == [a2] + rest && ([a2] + rest)[1..] == rest;
  }

  lemma DoThree(c: Config, me: Peer, other: Log, a1: Step, a2: Step, a3: Step, rest: seq<Step>)
    ensures DoAll(c, me, other, [a1, a2, a3] + rest) ==
            DoAll(c, Do(c, Do(c, Do(c, me, other, a1), other, a2), other, a3), other, rest)
  {
    hide Do;
    assert [a1, a2, a3] + rest == [a1, a2] + ([a3] + rest) && ([a3] + rest)[1..] == rest;
    DoTwo(c, me, other, a1, a2, [a3] + rest);
  }

  /** In session, sendLoop idle, and room for `k` more nonces. */
  ghost predicate Sending(p: Peer, k: nat) {
    && p.shake.phase.InSession? && p.tx.pipe.hand.Empty? && Below(p.tx.pipe.queue, |p.tx.pipe.captured|)
    && AllValid(p.log) && |p.log.issued| + k + 1 < TWO_64
  }

  lemma CaptureOne(c: Config, p: Peer, other: Log, f: Bytes, k: nat)
    requires Sending(p, k)
    ensures
      var p' := Do(c, p, other, Pipe(Pipeline.Capture(f)));
      && Sending(p', k) && p'.log == p.log
      && Pipeline.Queued(p'.tx.pipe) == Pipeline.Queued(p.tx.pipe) + (if |p.tx.pipe.queue| < Pipeline.CAPACITY then [f] else [])
  {
    Pipeline.QueuedCapture(p.tx.pipe, f);
  }

  lemma {:induction false} CapturesQueue(c: Config, p: Peer, other: Log, frames: seq<Bytes>, k: nat)
    requires Sending(p, k)
    ensures
      var p' := DoAll(c, p, other, Captures(frames));
      && Sending(p', k) && p'.log == p.log
      && Pipeline.Queued(p'.tx.pipe) == Offered(p.tx.pipe, frames)
    decreases |frames|
  {
    hide Do;
    if frames != [] {
      var p1, rest := Do(c, p, other, Pipe(Pipeline.Capture(frames[0]))), frames[1..];
      CaptureOne(c, p, other, frames[0], k);
      CapturesQueue(c, p1, other, rest, k);
      assert Captures(frames)[1..] == Captures(rest);
      OfferedNext(p.tx.pipe, p1.tx.pipe, frames);
    }
  }

  lemma OfferedNext(t: Pipeline.Tx, t1: Pipeline.Tx, frames: seq<Bytes>)
    requires frames != [] && Below(t.queue, |t.captured|) && Below(t1.queue, |t1.captured|)
    requires Pipeline.Queued(t1) == Pipeline.Queued(t) + (if |t.queue| < Pipeline.CAPACITY then [frames[0]] else [])
    ensures Offered(t1, frames[1..]) == Offered(t, frames)
  {
    assert |Pipeline.Queued(t1)| == |t1.queue| && |Pipeline.Queued(t)| == |t.queue|;
  }

  predicate Written(log: Log, i: nat, f: Bytes) {
    i < |log.issued| && i in log.wire && log.issued[i].m == Frame(f)
  }

  /** From position `first` on, the log holds the frames `fs`, all written to the socket. */
  ghost predicate Carries(log: Log, first: nat, fs: seq<Bytes>) {
    forall k | 0 <= k < |fs| :: Written(log, first + k, fs[k])
  }

  /** One turn of sendLoop: a legal frame is encoded and written, another one is dropped. */
  lemma SendOne(c: Config, p: Peer, other: Log, k: nat)
    requires Sending(p, k + 1) && p.tx.pipe.queue != []
    ensures
      var f := Pipeline.Queued(p.tx.pipe)[0];
      var p' := Do(c, Do(c, Do(c, p, other, Pipe(Pipeline.Dequeue)), other, Pipe(Pipeline.Encode)),
                   other, Pipe(Pipeline.Write(true)));
      && Sending(p', k) && Pipeline.Queued(p'.tx.pipe) == Pipeline.Queued(p.tx.pipe)[1..]
      && p.log.issued <= p'.log.issued && p.log.wire <= p'.log.wire
      && |p'.log.issued| == |p.log.issued| + |Legal([f])| && Carries(p'.log, |p.log.issued|, Legal([f]))
  {
    var n, t := |p.log.issued|, p.tx.pipe;
    var p1 := Do(c, p, other, Pipe(Pipeline.Dequeue));
    assert p1 == p.(tx := p.tx.(pipe := t.(hand := Pipeline.Taken(t.queue[0]), queue := t.queue[1..])));
    var p2 := Do(c, p1, other, Pipe(Pipeline.Encode));
    if Frame(t.captured[t.queue[0]]).Valid() {
      assert p2.tx.pipe.encoded[|t.encoded|] == t.queue[0];
      assert p2.tx.codedAs == n && p2.tx.pipe.hand == Pipeline.Coded(t.queue[0]);
      var p3 := Do(c, p2, other, Pipe(Pipeline.Write(true)));
      assert p3.tx.pipe.sent[|t.sent|] == t.queue[0];
    }
  }

  lemma {:induction false} SendsAll(c: Config, p: Peer, other: Log, n: nat)
    requires Sending(p, n) && n == |p.tx.pipe.queue|
    ensures
      var p', fs := DoAll(c, p, other, Sends(n)), Legal(Pipeline.Queued(p.tx.pipe));
      && p.log.issued <= p'.log.issued && p.log.wire <= p'.log.wire && AllValid(p'.log)
      && Carries(p'.log, |p.log.issued|, fs)
    decreases n
  {
    hide Do;
    if n > 0 {
      var a1, a2, a3 := Pipe(Pipeline.Dequeue), Pipe(Pipeline.Encode), Pipe(Pipeline.Write(true));
      var p1 := Do(c, Do(c, Do(c, p, other, a1), other, a2), other, a3);
      SendOne(c, p, other, n - 1);
      assert |p1.tx.pipe.queue| == |Pipeline.Queued(p1.tx.pipe)| == n - 1;
      SendsAll(c, p1, other, n - 1);
      DoThree(c, p, other, a1, a2, a3, Sends(n - 1));
      var p' := DoAll(c, p1, other, Sends(n - 1));
      CarriesAll(p1.log, p'.log, |p.log.issued|, Pipeline.Queued(p.tx.pipe));
    }
  }

  lemma CarriesAll(log: Log, log': Log, first: nat, frames: seq<Bytes>)
    requires frames != [] && log.issued <= log'.issued && log.wire <= log'.wire
    requires |log.issued| == first + |Legal([frames[0]])| && Carries(log, first, Legal([frames[0]]))
    requires Carries(log', |log.issued|, Legal(frames[1..]))
    ensures Carries(log', first, Legal(frames))
  {
    var fs, rest := Legal(frames), Legal(frames[1..]);
    if Frame(frames[0]).Valid() {
      assert Legal([frames[0]])[0] == frames[0];
      forall k | 0 <= k < |fs| ensures Written(log', first + k, fs[k]) {
        assert k > 0 ==> fs[k] == rest[k - 1];
      }
    }
  }

  /** One datagram goes from the socket to its handler. */
  lemma FrameHandled(c: Config, me: Peer, from: Log, n: nat, f: Bytes)
    requires c.auth.Secure() && AllValid(from) && me.rx.recvNonce <= n && |me.log.issued| + 1 < TWO_64
    requires me.shake.phase.InSession? && me.rx.inbox.None?
    requires Written(from, n, f)
    ensures
      var me' := Do(c, Do(c, me, from, Deliver(Genuine(n), me.shake.phase.peer)), from, Dispatch(me.mon.clock));
      && me'.rx.handled == me.rx.handled + [f] && me'.rx.recvNonce == n + 1
      && me'.rx.inbox.None? && me'.shake == me.shake && me'.log == me.log && me'.mon == me.mon
  {
    hide Unseal, Seal;
    Arrival(c, from, me.rx.recvNonce, Genuine(n));
  }

  lemma {:induction false} TakesAll(c: Config, me: Peer, from: Log, first: nat, fs: seq<Bytes>)
    requires c.auth.Secure() && AllValid(from) && Carries(from, first, fs)
    requires me.rx.recvNonce <= first && |me.log.issued| + 1 < TWO_64
    requires me.shake.phase.InSession? && me.rx.inbox.None?
    ensures DoAll(c, me, from, Takes(first, |fs|, me.shake.phase.peer, me.mon.clock)).rx.handled == me.rx.handled + fs
    decreases |fs|
  {
    hide Do;
    if fs != [] {
      var peer, clock, rest := me.shake.phase.peer, me.mon.clock, fs[1..];
      var a1, a2 := Deliver(Genuine(first), peer), Dispatch(clock);
      var me1 := Do(c, Do(c, me, from, a1), from, a2);
      FrameHandled(c, me, from, first, fs[0]);
      forall k | 0 <= k < |rest| ensures Written(from, first + 1 + k, rest[k]) {
        assert rest[k] == fs[k + 1];
      }
      TakesAll(c, me1, from, first + 1, rest);
      DoTwo(c, me, from, a1, a2, Takes(first + 1, |rest|, peer, clock));
      assert me.rx.handled + fs == me.rx.handled + [fs[0]] + rest;
    }
  }

  /** Everything is captured, then everything queued is sent, then everything sent is delivered. */
  function RelayTurns(s: System, who: Role, frames: seq<Bytes>): seq<Turn>
    requires Me(s, who).shake.phase.InSession?
    requires Below(Other(s, who).tx.pipe.queue, |Other(s, who).tx.pipe.captured|)
  {
    var me, other := Me(s, who), Other(s, who);
    var offered := Offered(other.tx.pipe, frames);
    By(Opposite(who), Captures(frames)) + By(Opposite(who), Sends(|offered|)) +
    By(who, Takes(|other.log.issued|, |Legal(offered)|, me.shake.phase.peer, me.mon.clock))
  }

  lemma JoinTurns(a: seq<Turn>, b: seq<Turn>, c: seq<Turn>, d: seq<Turn>)
    ensures a + (b + c + d) == a + b + c + d
  {
  }

  /** The sender's part: what was offered and is legal is on the wire, after all earlier traffic. */
  lemma SenderSide(c: Config, turns: seq<Turn>, who: Role, frames: seq<Bytes>, n: nat)
    requires Sending(Me(Run(c, turns), who), n)
    requires n == |Offered(Me(Run(c, turns), who).tx.pipe, frames)|
    ensures
      var s, s' := Run(c, turns), Run(c, turns + By(who, Captures(frames)) + By(who, Sends(n)));
      && Other(s', who) == Other(s, who) && AllValid(Me(s', who).log)
      && Carries(Me(s', who).log, |Me(s, who).log.issued|, Legal(Offered(Me(s, who).tx.pipe, frames)))
  {
    hide Do, Run, Legal, Offered, Carries, By, Captures, Sends;
    var s, ts := Run(c, turns), By(who, Captures(frames));
    RunAll(c, turns, who, Captures(frames));
    CapturesQueue(c, Me(s, who), Other(s, who).log, frames, n);
    var p := Me(Run(c, turns + ts), who);
    assert |p.tx.pipe.queue| == |Pipeline.Queued(p.tx.pipe)|;
    RunAll(c, turns + ts, who, Sends(n));
    SendsAll(c, p, Other(s, who).log, n);
  }

  /**
   Over a prompt network the tunnel is a FIFO: after any run, if both sides are in session
   and sendLoop is idle, the frames already queued and as many of the next ones as fit the
   queue are handled by the receiver, all of a legal size and in order. Neither old nonces
   nor old traffic can make it refuse one.
   */
  lemma PromptNetworkRelaysAll(c: Config, turns: seq<Turn>, who: Role, frames: seq<Bytes>)
    requires c.auth.Secure()
    requires
      var s := Run(c, turns);
      var me, other := Me(s, who), Other(s, who);
      && me.shake.phase.InSession? && me.rx.inbox.None? && |me.log.issued| + 1 < TWO_64
      && other.shake.phase.InSession? && other.tx.pipe.hand.Empty?
      && |other.log.issued| + |other.tx.pipe.queue| + |frames| + 1 < TWO_64
    ensures
      var s := Run(c, turns);
      var me, pipe := Me(s, who), Other(s, who).tx.pipe;
      && Below(pipe.queue, |pipe.captured|)
      && Me(Run(c, turns + RelayTurns(s, who, frames)), who).rx.handled == me.rx.handled + Legal(Offered(pipe, frames))
  {
    hide Do, Run, Carries, By, Captures, Sends, Takes;
    var s, sender := Run(c, turns), Opposite(who);
    var me, other := Me(s, who), Other(s, who);
    RunKeeps(c, turns);
    Pipeline.QueueBelow(other.tx.pipe);
    var offered := Offered(other.tx.pipe, frames);
    var n, first := |offered|, |other.log.issued|;
    var ts1, ts2 := By(sender, Captures(frames)), By(sender, Sends(n));
    var takes := Takes(first, |Legal(offered)|, me.shake.phase.peer, me.mon.clock);
    SenderSide(c, turns, sender, frames, n);
    RunAll(c, turns + ts1 + ts2, who, takes);
    TakesAll(c, me, Other(Run(c, turns + ts1 + ts2), who).log, first, Legal(offered));
    JoinTurns(turns, ts1, ts2, By(who, takes));
  }

  // ------------------------------------------------------------ pings and BYE

  /** A ping goes from the ticker to the socket. */
  lemma PingOut(c: Config, p: Peer, other: Log, now: I64)
    requires p.shake.phase.InSession? && p.mon.hand.None? && now > p.mon.clock && now != 0
    requires !PingMonitor.SendPing(p.mon.ping, now).1 && |p.log.issued| + 2 < TWO_64 && AllValid(p.log)
    ensures
      var n := |p.log.issued|;
      var p' := DoAll(c, p, other, [PingTick(now), PingEncode, Transmit(n)]);
      && p'.log.issued == p.log.issued + [Issue(Ping(now), 0)] && n in p'.log.wire && AllValid(p'.log)
      && p'.mon.ping.pending == now && p'.mon.clock == now && p'.mon.samples == p.mon.samples
      && p'.rx == p.rx && p'.shake == p.shake
  {
    var n := |p.log.issued|;
    DoThree(c, p, other, PingTick(now), PingEncode, Transmit(n), []);
    assert [PingTick(now), PingEncode, Transmit(n)] + [] == [PingTick(now), PingEncode, Transmit(n)];
  }

  /** The PING is read and dispatched, and the PONG written. */
  lemma PongOut(c: Config, q: Peer, from: Log, n: nat, t: I64)
    requires c.auth.Secure() && AllValid(from) && AllValid(q.log) && |q.log.issued| + 2 < TWO_64
    requires q.shake.phase.InSession? && q.rx.inbox.None? && q.rx.recvNonce <= n
    requires n < |from.issued| && n in from.wire && from.issued[n].m == Ping(t)
    ensures
      var m := |q.log.issued|;
      var q' := DoAll(c, q, from, [Deliver(Genuine(n), q.shake.phase.peer), Dispatch(q.mon.clock), Transmit(m)]);
      q'.log.issued == q.log.issued + [Issue(Pong(t), 0)] && m in q'.log.wire && AllValid(q'.log)
  {
    var m := |q.log.issued|;
    var a1, a2, a3 := Deliver(Genuine(n), q.shake.phase.peer), Dispatch(q.mon.clock), Transmit(m);
    DoThree(c, q, from, a1, a2, a3, []);
    assert [a1, a2, a3] + [] == [a1, a2, a3];
    PingTaken(c, q, from, n, t, q.mon.clock);
    Transmitted(c, Do(c, Do(c, q, from, a1), from, a2), from, m);
  }

  lemma Transmitted(c: Config, p: Peer, other: Log, i: nat)
    requires i < |p.log.issued| && |p.log.issued| + 1 < TWO_64
    ensures Do(c, p, other, Transmit(i)) == p.(log := p.log.(wire := p.log.wire + {i}))
  {
  }

  /** The PONG of the outstanding ping is read and dispatched. */
  lemma PongIn(c: Config, p: Peer, from: Log, m: nat, t: I64, at: int)
    requires c.auth.Secure() && AllValid(from) && |p.log.issued| + 1 < TWO_64
    requires p.shake.phase.InSession? && p.rx.inbox.None? && p.rx.recvNonce <= m
    requires m < |from.issued| && m in from.wire && from.issued[m].m == Pong(t)
    requires p.mon.ping.pending == t != 0 && at >= p.mon.clock
    ensures
      var p' := DoAll(c, p, from, [Deliver(Genuine(m), p.shake.phase.peer), Dispatch(at)]);
      p'.mon.samples == p.mon.samples + [Sample(t, at - t)] && p'.mon.ping == PingMonitor.IDLE && p'.mon.clock == at
  {
    hide Unseal, Seal;
    var a1, a2 := Deliver(Genuine(m), p.shake.phase.peer), Dispatch(at);
    Arrival(c, from, p.rx.recvNonce, Genuine(m));
    DoTwo(c, p, from, a1, a2, []);
    assert [a1, a2] + [] == [a1, a2];
  }

  /** A ping, its echo and the dispatch of the echo, over a prompt network. */
  function PingTurns(s: System, who: Role, now: I64, at: int): seq<Turn>
    requires Me(s, who).shake.phase.InSession? && Other(s, who).shake.phase.InSession?
  {
    var me, other := Me(s, who), Other(s, who);
    var n, m := |me.log.issued|, |other.log.issued|;
    By(who, [PingTick(now), PingEncode, Transmit(n)]) +
    By(Opposite(who), [Deliver(Genuine(n), other.shake.phase.peer), Dispatch(other.mon.clock), Transmit(m)]) +
    By(who, [Deliver(Genuine(m), me.shake.phase.peer), Dispatch(at)])
  }

  /**
   A ping is measured: after any run with both in session, a ping that does not time out,
   its echo and the dispatch of the echo add one sample, the time in between, and leave no
   ping outstanding and none missed.
   */
  lemma PingRoundTrip(c: Config, turns: seq<Turn>, who: Role, now: I64, at: int)
    requires c.auth.Secure()
    requires
      var s := Run(c, turns);
      var me, other := Me(s, who), Other(s, who);
      && me.shake.phase.InSession? && me.rx.inbox.None? && me.mon.hand.None? && |me.log.issued| + 2 < TWO_64
      && other.shake.phase.InSession? && other.rx.inbox.None? && |other.log.issued| + 2 < TWO_64
      && me.mon.clock < now <= at && now != 0 && !PingMonitor.SendPing(me.mon.ping, now).1
    ensures
      var s := Run(c, turns);
      var me' := Me(Run(c, turns + PingTurns(s, who, now, at)), who);
      me'.mon.samples == Me(s, who).mon.samples + [Sample(now, at - now)] && me'.mon.ping == PingMonitor.IDLE && me'.mon.clock == at
  {
    hide Do, Run, By, DoAll;
    var s, other := Run(c, turns), Other(Run(c, turns), who);
    var me, n, m := Me(s, who), |Me(s, who).log.issued|, |other.log.issued|;
    var out := [PingTick(now), PingEncode, Transmit(n)];
    var echo := [Deliver(Genuine(n), other.shake.phase.peer), Dispatch(other.mon.clock), Transmit(m)];
    var back := [Deliver(Genuine(m), me.shake.phase.peer), Dispatch(at)];
    var ts1, ts2 := By(who, out), By(Opposite(who), echo);
    RunKeeps(c, turns);
    PingOut(c, me, other.log, now);
    RunAll(c, turns, who, out);
    var s1 := Run(c, turns + ts1);
    PongOut(c, other, Me(s1, who).log, n, now);
    RunAll(c, turns + ts1, Opposite(who), echo);
    var s2 := Run(c, turns + ts1 + ts2);
    PongIn(c, Me(s1, who), Other(s2, who).log, m, now, at);
    RunAll(c, turns + ts1 + ts2, who, back);
    JoinTurns(turns, ts1, ts2, By(who, back));
  }

  /** A BYE said in session reaches the peer's recvLoop, in a run that delivers it. */
  lemma ByeArrives(c: Config, turns: seq<Turn>, who: Role)
    requires c.auth.Secure()
    requires
      var me, other := Me(Run(c, turns), who), Other(Run(c, turns), who);
      && me.shake.phase.InSession? && me.rx.inbox.None? && |me.log.issued| + 1 < TWO_64
      && other.shake.phase.InSession? && |other.log.issued| + 2 < TWO_64
    ensures
      var me, n := Me(Run(c, turns), who), |Other(Run(c, turns), who).log.issued|;
      var ts := By(Opposite(who), [ByeEncode, Transmit(n)]) + By(who, [Deliver(Genuine(n), me.shake.phase.peer)]);
      Me(Run(c, turns + ts), who).rx.inbox == Some(Inbox(n, Bye))
  {
    hide Do, Run, By, DoAll;
    var me, other := Me(Run(c, turns), who), Other(Run(c, turns), who);
    var n := |other.log.issued|;
    var said, taken := [ByeEncode, Transmit(n)], [Deliver(Genuine(n), me.shake.phase.peer)];
    RunKeeps(c, turns);
    ByeOut(c, other, me.log);
    RunAll(c, turns, Opposite(who), said);
    var ts := By(Opposite(who), said);
    ByeIn(c, me, Other(Run(c, turns + ts), who).log, n);
    RunAll(c, turns + ts, who, taken);
    assert turns + (ts + By(who, taken)) == turns + ts + By(who, taken);
  }

  lemma ByeOut(c: Config, p: Peer, other: Log)
    requires p.shake.phase.InSession? && |p.log.issued| + 2 < TWO_64 && AllValid(p.log)
    ensures
      var n := |p.log.issued|;
      var p' := DoAll(c, p, other, [ByeEncode, Transmit(n)]);
      p'.log.issued == p.log.issued + [Issue(Bye, 0)] && n in p'.log.wire && AllValid(p'.log)
  {
    var n := |p.log.issued|;
    DoTwo(c, p, other, ByeEncode, Transmit(n), []);
    assert [ByeEncode, Transmit(n)] + [] == [ByeEncode, Transmit(n)];
  }

  lemma ByeIn(c: Config, p: Peer, from: Log, n: nat)
    requires c.auth.Secure() && AllValid(from) && |p.log.issued| + 1 < TWO_64
    requires p.shake.phase.InSession? && p.rx.inbox.None? && p.rx.recvNonce <= n
    requires n < |from.issued| && n in from.wire && from.issued[n].m == Bye
    ensures DoAll(c, p, from, [Deliver(Genuine(n), p.shake.phase.peer)]).rx.inbox == Some(Inbox(n, Bye))
  {
    hide Unseal, Seal;
    Arrival(c, from, p.rx.recvNonce, Genuine(n));
    var a := Deliver(Genuine(n), p.shake.phase.peer);
    assert [a][1..] == [];
  }
}
