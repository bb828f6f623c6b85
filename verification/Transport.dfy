/**
 The UDP transport (internal/transport/transport.go): the two handshake loops, the
 reconnection backoff, and Send, SendBye and Close. Socket reads are a list of what the
 turns return; socket writes are appended to `out`.
 */
module Transport {
  import opened ByteOrder
  import opened Protocol
  import opened Wrappers

  datatype Mode = ModeListen | ModeConnect

  /** An IP address in canonical form, and a port. */
  datatype Addr = Addr(ip: Bytes, port: nat)

  /** What one turn of a receive loop finds. */
  datatype Read =
    | Cancelled                         // the context is done
    | Timeout
    | Failed                            // any other turn error
    | Got(data: Bytes, src: Addr)

  datatype Outcome =
    | Connected
    | WrongMode
    | ContextDone
    | ReadFailed
    | EncodeFailed
    | WriteFailed
    | ChallengeInvalid
    | TimedOut                          // the reads ended first: deadline, or still waiting

  // ----------------------------------------------------------------- verdicts

  /** What WaitForPeer does with a decoded datagram. */
  datatype Welcome = Ignore | AskForHello | Accept(challenge: Bytes)

  function OnWaiting(r: Result<Message>): Welcome {
    match r
    case Err(_) => Ignore
    case Ok(Hello(_, c)) => Accept(c)
    case Ok(_) => AskForHello
  }

  /** What attemptHandshake does with a decoded datagram from the expected peer. */
  datatype Reply = Skip | Refuse | Join

  function OnAttempt(a: Auth, challenge: Bytes, r: Result<Message>): Reply {
    if r.Err? || !r.value.HelloAck? then Skip
    else if a.Secure() && !a.VerifyResponse(challenge, r.value.response) then Refuse
    else Join
  }

  // ------------------------------------------------- the loops, turn by turn

  /** Datagrams from elsewhere are skipped before they are decoded. */
  predicate Listens(from: Option<Addr>, src: Addr) {
    from.None? || from.value == src
  }

  /** `recvNonce` when turn `n` begins. */
  function NonceAt(a: Auth, r: U64, from: Option<Addr>, turns: seq<Read>, n: nat): U64
    requires n <= |turns|
  {
    if n == 0 then r
    else
      var before, turn := NonceAt(a, r, from, turns, n - 1), turns[n - 1];
      if turn.Got? && Listens(from, turn.src) then Unseal(a, before, turn.data).1 else before
  }

  /** What the datagram of turn `k` decodes to. */
  function Decoded(a: Auth, r: U64, from: Option<Addr>, turns: seq<Read>, k: nat): Result<Message>
    requires k < |turns| && turns[k].Got?
  {
    Unseal(a, NonceAt(a, r, from, turns, k), turns[k].data).0
  }

  /** Turn `k` does not end WaitForPeer. */
  predicate StillWaits(a: Auth, r: U64, turns: seq<Read>, k: nat)
    requires k < |turns|
  {
    turns[k].Timeout? || (turns[k].Got? && !OnWaiting(Decoded(a, r, None, turns, k)).Accept?)
  }

  /** Where WaitForPeer sent a BYE in the first `n` turns because the message was no HELLO. */
  function Asked(a: Auth, r: U64, turns: seq<Read>, n: nat): seq<Addr>
    requires n <= |turns|
  {
    if n == 0 then []
    else
      Asked(a, r, turns, n - 1) +
      if turns[n - 1].Got? && OnWaiting(Decoded(a, r, None, turns, n - 1)).AskForHello?
      then [turns[n - 1].src] else []
  }

  lemma WaitStarts(a: Auth, r: U64, turns: seq<Read>)
    ensures NonceAt(a, r, None, turns, 0) == r && Asked(a, r, turns, 0) == []
  {
  }

  /** What turn `n` adds to the nonce, to the strangers asked and to the wait. */
  lemma WaitTurn(a: Auth, r: U64, turns: seq<Read>, n: nat)
    requires n < |turns|
    ensures turns[n].Timeout? ==>
              && NonceAt(a, r, None, turns, n + 1) == NonceAt(a, r, None, turns, n)
              && Asked(a, r, turns, n + 1) == Asked(a, r, turns, n) && StillWaits(a, r, turns, n)
    ensures turns[n].Cancelled? || turns[n].Failed? ==>
              && NonceAt(a, r, None, turns, n + 1) == NonceAt(a, r, None, turns, n)
              && Asked(a, r, turns, n + 1) == Asked(a, r, turns, n)
    ensures turns[n].Got? ==>
              var (m, nonce) := Unseal(a, NonceAt(a, r, None, turns, n), turns[n].data);
              && Decoded(a, r, None, turns, n) == m && NonceAt(a, r, None, turns, n + 1) == nonce
              && Asked(a, r, turns, n + 1) ==
                 Asked(a, r, turns, n) + (if OnWaiting(m).AskForHello? then [turns[n].src] else [])
              && (StillWaits(a, r, turns, n) <==> !OnWaiting(m).Accept?)
  {
    hide Unseal, OnWaiting;
  }

  /** Turn `k` does not end attemptHandshake. */
  predicate StillTries(a: Auth, r: U64, peer: Addr, challenge: Bytes, turns: seq<Read>, k: nat)
    requires k < |turns|
  {
    || turns[k].Timeout?
    || (turns[k].Got? && turns[k].src != peer)
    || (turns[k].Got? && OnAttempt(a, challenge, Decoded(a, r, Some(peer), turns, k)).Skip?)
  }

  /** Turn `k` brings the answer to `challenge` from the peer. */
  predicate JoinsAt(a: Auth, r: U64, peer: Addr, challenge: Bytes, turns: seq<Read>, k: nat)
    requires k < |turns|
  {
    turns[k].Got? && turns[k].src == peer && OnAttempt(a, challenge, Decoded(a, r, Some(peer), turns, k)).Join?
  }

  /** The first turn that ends attemptHandshake brings the answer to `challenge`. */
  predicate Joins(a: Auth, r: U64, peer: Addr, challenge: Bytes, turns: seq<Read>) {
    exists k | 0 <= k < |turns| ::
      JoinsAt(a, r, peer, challenge, turns, k) && forall j | 0 <= j < k :: StillTries(a, r, peer, challenge, turns, j)
  }

  lemma JoinsHere(a: Auth, r: U64, peer: Addr, challenge: Bytes, turns: seq<Read>, n: nat)
    requires n < |turns| && JoinsAt(a, r, peer, challenge, turns, n)
    requires forall k | 0 <= k < n :: StillTries(a, r, peer, challenge, turns, k)
    ensures Joins(a, r, peer, challenge, turns)
  {
  }

  /** No later turn can make up for a first deciding turn that is not the answer. */
  lemma JoinsDecided(a: Auth, r: U64, peer: Addr, challenge: Bytes, turns: seq<Read>, n: nat)
    requires n <= |turns| && forall k | 0 <= k < n :: StillTries(a, r, peer, challenge, turns, k)
    ensures Joins(a, r, peer, challenge, turns) ==>
              n < |turns| && (StillTries(a, r, peer, challenge, turns, n) || JoinsAt(a, r, peer, challenge, turns, n))
  {
    hide Decoded, OnAttempt;
    if k: nat :| k < |turns| && JoinsAt(a, r, peer, challenge, turns, k)
                 && forall j | 0 <= j < k :: StillTries(a, r, peer, challenge, turns, j)
    {
      assert k < n ==> StillTries(a, r, peer, challenge, turns, k);
    }
  }

  /** The send nonce after `k` more messages; without a key none is drawn. */
  function Advance(a: Auth, sendNonce: U64, k: nat): U64 {
    if a.Secure() then (sendNonce + k) % TWO_64 else sendNonce
  }

  lemma AdvanceNext(a: Auth, sendNonce: U64, k: nat)
    ensures Advance(a, Advance(a, sendNonce, k), 1) == Advance(a, sendNonce, k + 1)
    ensures Advance(a, sendNonce, 0) == sendNonce
  {
  }

  /** Addresses of the datagrams written by a call. */
  function Targets(out: seq<(Bytes, Addr)>): seq<Addr> {
    seq(|out|, i requires 0 <= i < |out| => out[i].1)
  }

  // ------------------------------------------------------------------ backoff

  const CONNECT_BACKOFF := [1, 2, 5, 10]

  /** The delay after failed attempt number `attempt` in Connect, in seconds. */
  function ConnectDelay(attempt: nat): nat {
    var i := if attempt >= |CONNECT_BACKOFF| then |CONNECT_BACKOFF| - 1 else attempt;
    CONNECT_BACKOFF[i]
  }

  /** `getBackoffDelay` of the reconnection loop. */
  function GetBackoffDelay(attempt: nat): nat {
    var backoffs := [1, 2, 5, 10];
    if attempt < |backoffs| then backoffs[attempt] else 10
  }

  /** The seconds Connect has slept after `n` failed attempts. */
  function TotalWait(n: nat): nat {
    if n == 0 then 0 else TotalWait(n - 1) + ConnectDelay(n - 1)
  }

  lemma {:induction false} BackoffSchedule(n: nat, m: nat)
    requires n <= m
    ensures ConnectDelay(n) == GetBackoffDelay(n)
    ensures ConnectDelay(n) <= ConnectDelay(m) <= 10
    ensures n < 3 ==> ConnectDelay(n) == n * n + 1
    ensures n >= 3 ==> TotalWait(n) == 8 + 10 * (n - 3)
    decreases n
  {
    if n > 3 {
      BackoffSchedule(n - 1, m);
    }
  }

  // -------------------------------------------------------------------- class

  /** One attempt of Connect, as its environment. */
  datatype Attempt = Attempt(
    cancelledBefore: bool,
    random: Result<Bytes>,
    helloWritten: bool,
    turns: seq<Read>,
    cancelledInBackoff: bool
  )

  /** How many of the first `n` attempts got their HELLO onto the wire. */
  function HellosWritten(attempts: seq<Attempt>, n: nat): nat
    requires n <= |attempts|
  {
    if n == 0 then 0
    else HellosWritten(attempts, n - 1) + if attempts[n - 1].random.Ok? && attempts[n - 1].helloWritten then 1 else 0
  }

  /** How many of the first `n` attempts encoded a HELLO. */
  function HellosEncoded(attempts: seq<Attempt>, n: nat): nat
    requires n <= |attempts|
  {
    if n == 0 then 0 else HellosEncoded(attempts, n - 1) + if attempts[n - 1].random.Ok? then 1 else 0
  }

  /** How many attempts Connect began. */
  function Begun(attempts: seq<Attempt>, r: Outcome, tried: nat): nat {
    if tried < |attempts| && !r.WrongMode? && !attempts[tried].cancelledBefore then tried + 1 else tried
  }

  /** The HELLO goes out, and its answer is what the attempt's turns bring first. */
  predicate Succeeds(a: Auth, r: U64, peer: Addr, at: Attempt) {
    at.random.Ok? && at.helloWritten && Joins(a, r, peer, at.random.value, at.turns)
  }

  class Transport {
    const mode: Mode
    const codec: Codec
    var peerAddr: Option<Addr>
    var challenge: Bytes
    var connected: bool
    var closed: bool
    var out: seq<(Bytes, Addr)>

    constructor (mode: Mode, codec: Codec, peerAddr: Option<Addr>)
      ensures this.mode == mode && this.codec == codec && this.peerAddr == peerAddr
      ensures !connected && !closed && out == [] && challenge == []
    {
      this.mode, this.codec, this.peerAddr := mode, codec, peerAddr;
      challenge, connected, closed, out := [], false, false, [];
    }

    /** WaitForPeer's handling of one datagram, up to the write of the HELLO_ACK. */
    method Receive(data: Bytes, src: Addr, ackWritten: bool) returns (w: Welcome)
      modifies this`peerAddr, this`challenge, this`out, codec
      ensures w == OnWaiting(Unseal(codec.auth, old(codec.recvNonce), data).0)
      ensures codec.recvNonce == if w.Accept? then 0 else Unseal(codec.auth, old(codec.recvNonce), data).1
      ensures codec.sendNonce == if w.Ignore? then old(codec.sendNonce) else Advance(codec.auth, old(codec.sendNonce), 1)
      ensures !w.Accept? ==> peerAddr == old(peerAddr) && challenge == old(challenge)
      ensures w.Ignore? ==> out == old(out)
      ensures w.AskForHello? ==> out == old(out) + [(Seal(codec.auth, codec.sendNonce, Bye), src)]
      ensures w.Accept? ==>
                && peerAddr == Some(src) && challenge == w.challenge
                && out == old(out) + (if ackWritten then [(Ack(codec.sendNonce, challenge), src)] else [])
    {
      var msg := codec.Decode(data);
      if msg.Err? {
        return Ignore;
      }
      if !msg.value.Hello? {
        var bye := codec.EncodeBye();
        out := out + [(bye, src)];
        return AskForHello;
      }
      peerAddr := Some(src);
      challenge := msg.value.challenge;
      codec.ResetRecvNonce();
      var ack := codec.EncodeHelloAck(challenge);
      if ackWritten {
        out := out + [(ack, src)];
      }
      return Accept(challenge);
    }

    /** The HELLO_ACK that answers a challenge. */
    ghost function Ack(nonce: U64, challenge: Bytes): Bytes {
      Seal(codec.auth, nonce, HelloAck(PROTOCOL_VERSION, codec.auth.Response(challenge)))
    }

    /**
     Waits for a HELLO. The first `n` turns are consumed; the last of them decides, the
     ones before it did not. On success the session starts from a zero receive nonce, the
     peer is where that HELLO came from, and it was sent the response to its challenge.
     */
    method WaitForPeer(turns: seq<Read>, ackWritten: bool) returns (r: Outcome, n: nat)
      modifies this, codec
      ensures r.WrongMode? <==> mode != ModeListen
      ensures n <= |turns| && closed == old(closed)
      ensures forall k | 0 <= k < n - 1 :: StillWaits(codec.auth, old(codec.recvNonce), turns, k)
      ensures r in {WrongMode, TimedOut, ContextDone, ReadFailed} || r == (if ackWritten then Connected else WriteFailed)
      ensures r.WrongMode? ==> n == 0 && out == old(out) && codec.sendNonce == old(codec.sendNonce)
      ensures !r.Connected? && !r.WriteFailed? ==>
                && peerAddr == old(peerAddr)
                && codec.recvNonce == NonceAt(codec.auth, old(codec.recvNonce), None, turns, n)
                && Targets(out) == Targets(old(out)) + Asked(codec.auth, old(codec.recvNonce), turns, n)
      ensures r.WriteFailed? ==>
                n > 0 && Targets(out) == Targets(old(out)) + Asked(codec.auth, old(codec.recvNonce), turns, n - 1)
      ensures r.TimedOut? ==>
                n == |turns| && (n > 0 ==> StillWaits(codec.auth, old(codec.recvNonce), turns, n - 1))
      ensures r.ContextDone? ==> n > 0 && turns[n - 1].Cancelled?
      ensures r.ReadFailed? ==> n > 0 && turns[n - 1].Failed?
      ensures r.Connected? || r.WriteFailed? ==>
                && n > 0 && turns[n - 1].Got?
                && OnWaiting(Decoded(codec.auth, old(codec.recvNonce), None, turns, n - 1)) == Accept(challenge)
                && peerAddr == Some(turns[n - 1].src)
                && codec.recvNonce == 0
      ensures !r.WrongMode? ==>
                var decided := r.Connected? || r.WriteFailed?;
                codec.sendNonce == Advance(codec.auth, old(codec.sendNonce),
                                           |Asked(codec.auth, old(codec.recvNonce), turns, if decided then n - 1 else n)|
                                           + if decided then 1 else 0)
      ensures r.Connected? ==>
                && connected
                && |out| > 0
                && out[|out| - 1] == (Ack(codec.sendNonce, challenge), turns[n - 1].src)
                && Targets(out[..|out| - 1]) ==
                   Targets(old(out)) + Asked(codec.auth, old(codec.recvNonce), turns, n - 1)
      ensures !r.Connected? ==> connected == old(connected)
    {
      hide Unseal, Seal, OnWaiting, Advance, NonceAt, Asked, StillWaits, Decoded;
      AdvanceNext(codec.auth, codec.sendNonce, 0);
      WaitStarts(codec.auth, codec.recvNonce, turns);
      n := 0;
      if mode != ModeListen {
        return WrongMode, 0;
      }
      ghost var a, r0 := codec.auth, codec.recvNonce;
      while n < |turns|
        invariant n <= |turns| && closed == old(closed) && connected == old(connected) && peerAddr == old(peerAddr)
        invariant codec.recvNonce == NonceAt(a, r0, None, turns, n)
        invariant forall k | 0 <= k < n :: StillWaits(a, r0, turns, k)
        invariant Targets(out) == Targets(old(out)) + Asked(a, r0, turns, n)
        invariant codec.sendNonce == Advance(a, old(codec.sendNonce), |Asked(a, r0, turns, n)|)
      {
        AdvanceNext(a, old(codec.sendNonce), |Asked(a, r0, turns, n)|);
        WaitTurn(a, r0, turns, n);
        var turn := turns[n];
        n := n + 1;
        match turn
        case Cancelled => return ContextDone, n;
        case Failed => return ReadFailed, n;
        case Timeout =>
        case Got(data, src) =>
          ghost var before := out;
          var w := Receive(data, src, ackWritten);
          if w.Accept? {
            if !ackWritten {
              return WriteFailed, n;
            }
            assert out[..|out| - 1] == before;
            connected := true;
            return Connected, n;
          }
          assert w.AskForHello? ==> Targets(out) == Targets(before) + [src];
      }
      return TimedOut, n;
    }

    /** attemptHandshake's handling of one datagram from the peer's address. */
    method Judge(data: Bytes) returns (v: Reply)
      modifies this`connected, codec`recvNonce
      ensures v == OnAttempt(codec.auth, challenge, Unseal(codec.auth, old(codec.recvNonce), data).0)
      ensures codec.recvNonce == if v.Join? then 0 else Unseal(codec.auth, old(codec.recvNonce), data).1
      ensures connected == (v.Join? || old(connected))
    {
      var msg := codec.Decode(data);
      if msg.Err? || !msg.value.HelloAck? {
        return Skip;
      }
      if codec.auth.Secure() && !codec.auth.VerifyResponse(challenge, msg.value.response) {
        return Refuse;
      }
      codec.ResetRecvNonce();
      connected := true;
      return Join;
    }

    /**
     One HELLO and the wait for its HELLO_ACK. It succeeds exactly if the first turn that
     decides brings a HELLO_ACK from the peer's address whose response answers this
     attempt's challenge; a HELLO_ACK with another response ends the attempt.
     */
    method AttemptHandshake(random: Result<Bytes>, helloWritten: bool, turns: seq<Read>)
      returns (r: Outcome, n: nat)
      requires random.Ok? ==> |random.value| == CHALLENGE_SIZE
      requires peerAddr.Some?
      modifies this`challenge, this`connected, this`out, codec
      ensures n <= |turns|
      ensures r.EncodeFailed? <==> random.Err?
      ensures r.WriteFailed? <==> random.Ok? && !helloWritten
      ensures random.Ok? ==> challenge == random.value
      ensures codec.sendNonce == if random.Ok? then Advance(codec.auth, old(codec.sendNonce), 1) else old(codec.sendNonce)
      ensures random.Err? || !helloWritten ==> out == old(out)
      ensures random.Ok? && helloWritten ==>
                && out == old(out) +
                   [(Seal(codec.auth, codec.sendNonce, Hello(PROTOCOL_VERSION, challenge)), peerAddr.value)]
                && forall k | 0 <= k < n - 1 ::
                     StillTries(codec.auth, old(codec.recvNonce), peerAddr.value, challenge, turns, k)
      ensures !r.WrongMode?
      ensures r.EncodeFailed? || r.WriteFailed? ==> n == 0
      ensures !r.Connected? ==> codec.recvNonce == NonceAt(codec.auth, old(codec.recvNonce), peerAddr, turns, n)
      ensures r.TimedOut? ==>
                && n == |turns|
                && (n > 0 ==> StillTries(codec.auth, old(codec.recvNonce), peerAddr.value, challenge, turns, n - 1))
      ensures r.ContextDone? ==> n > 0 && turns[n - 1].Cancelled?
      ensures r.ReadFailed? ==> n > 0 && turns[n - 1].Failed?
      ensures r.Connected? || r.ChallengeInvalid? ==>
                && n > 0 && turns[n - 1].Got? && turns[n - 1].src == peerAddr.value
                && OnAttempt(codec.auth, challenge,
                             Decoded(codec.auth, old(codec.recvNonce), peerAddr, turns, n - 1))
                   == (if r.Connected? then Join else Refuse)
      ensures r.Connected? <==>
                && random.Ok? && helloWritten
                && Joins(codec.auth, old(codec.recvNonce), peerAddr.value, random.value, turns)
      ensures r.Connected? ==> connected && codec.recvNonce == 0
      ensures !r.Connected? ==> connected == old(connected)
    {
      hide Unseal, Seal, OnAttempt, Joins;
      n := 0;
      var hello := codec.EncodeHello(random);
      if hello.Err? {
        return EncodeFailed, 0;
      }
      challenge := hello.value.1;
      if !helloWritten {
        return WriteFailed, 0;
      }
      out := out + [(hello.value.0, peerAddr.value)];
      ghost var a, r0 := codec.auth, codec.recvNonce;
      while n < |turns|
        invariant n <= |turns| && connected == old(connected) && challenge == random.value
        invariant out == old(out) + [(Seal(a, codec.sendNonce, Hello(PROTOCOL_VERSION, challenge)), peerAddr.value)]
        invariant codec.recvNonce == NonceAt(a, r0, peerAddr, turns, n)
        invariant codec.sendNonce == Advance(a, old(codec.sendNonce), 1)
        invariant forall k | 0 <= k < n :: StillTries(a, r0, peerAddr.value, challenge, turns, k)
      {
        JoinsDecided(a, r0, peerAddr.value, challenge, turns, n);
        var turn := turns[n];
        n := n + 1;
        match turn
        case Cancelled => return ContextDone, n;
        case Failed => return ReadFailed, n;
        case Timeout =>
        case Got(data, src) =>
          if src == peerAddr.value {
            var v := Judge(data);
            if v.Refuse? {
              return ChallengeInvalid, n;
            }
            if v.Join? {
              JoinsHere(a, r0, peerAddr.value, challenge, turns, n - 1);
              return Connected, n;
            }
          }
      }
      JoinsDecided(a, r0, peerAddr.value, challenge, turns, n);
      return TimedOut, n;
    }

    /**
     Retries until an attempt succeeds or the context ends. No attempt before number `tried`
     succeeds, and the result is success exactly if that one does. The first attempt starts
     from the codec's receive nonce, later ones from zero, and the sleeps between them add
     up to the backoff schedule.
     */
    method Connect(attempts: seq<Attempt>) returns (r: Outcome, tried: nat, slept: nat)
      requires forall k | 0 <= k < |attempts| ::
                 attempts[k].random.Ok? ==> |attempts[k].random.value| == CHALLENGE_SIZE
      requires mode == ModeConnect ==> peerAddr.Some?
      modifies this, codec
      ensures r.WrongMode? <==> mode != ModeConnect
      ensures r in {Connected, WrongMode, ContextDone, TimedOut}
      ensures r.WrongMode? ==> out == old(out) && tried == 0 && codec.recvNonce == old(codec.recvNonce)
      ensures tried <= |attempts| && slept == TotalWait(tried)
      ensures peerAddr == old(peerAddr)
      ensures mode == ModeConnect ==> forall k | 0 <= k < tried ::
                && !attempts[k].cancelledBefore && !attempts[k].cancelledInBackoff
                && !Succeeds(codec.auth, if k == 0 then old(codec.recvNonce) else 0, peerAddr.value, attempts[k])
      ensures r.Connected? <==>
                && mode == ModeConnect && tried < |attempts| && !attempts[tried].cancelledBefore
                && Succeeds(codec.auth, if tried == 0 then old(codec.recvNonce) else 0, peerAddr.value, attempts[tried])
      ensures r.Connected? ==> connected && codec.recvNonce == 0 && attempts[tried].random == Ok(challenge)
      ensures r.ContextDone? ==>
                tried < |attempts| && (attempts[tried].cancelledBefore || attempts[tried].cancelledInBackoff)
      ensures r.TimedOut? ==> tried == |attempts|
      ensures !r.Connected? ==> connected == old(connected)
      ensures |out| == |old(out)| + HellosWritten(attempts, Begun(attempts, r, tried))
      ensures codec.sendNonce ==
              Advance(codec.auth, old(codec.sendNonce), HellosEncoded(attempts, Begun(attempts, r, tried)))
    {
      hide Joins, Seal, StillTries, OnAttempt, Decoded, Advance;
      AdvanceNext(codec.auth, codec.sendNonce, 0);
      tried, slept := 0, 0;
      if mode != ModeConnect {
        return WrongMode, 0, 0;
      }
      while tried < |attempts|
        invariant tried <= |attempts| && slept == TotalWait(tried)
        invariant connected == old(connected) && peerAddr == old(peerAddr)
        invariant codec.recvNonce == if tried == 0 then old(codec.recvNonce) else 0
        invariant forall k | 0 <= k < tried ::
                    && !attempts[k].cancelledBefore && !attempts[k].cancelledInBackoff
                    && !Succeeds(codec.auth, if k == 0 then old(codec.recvNonce) else 0, peerAddr.value, attempts[k])
        invariant |out| == |old(out)| + HellosWritten(attempts, tried)
        invariant codec.sendNonce == Advance(codec.auth, old(codec.sendNonce), HellosEncoded(attempts, tried))
      {
        AdvanceNext(codec.auth, old(codec.sendNonce), HellosEncoded(attempts, tried));
        var at := attempts[tried];
        if at.cancelledBefore {
          return ContextDone, tried, slept;
        }
        var outcome, used := AttemptHandshake(at.random, at.helloWritten, at.turns);
        if outcome.Connected? {
          return Connected, tried, slept;
        }
        var delay := ConnectDelay(tried);
        if at.cancelledInBackoff {
          return ContextDone, tried, slept;
        }
        slept := slept + delay;
        tried := tried + 1;
        codec.ResetRecvNonce();
      }
      return TimedOut, tried, slept;
    }

    /** `written` is whether the socket takes the datagram. */
    method Send(data: Bytes, written: bool) returns (ok: bool)
      requires connected ==> peerAddr.Some?
      modifies this`out
      ensures ok <==> !closed && connected && written
      ensures ok ==> out == old(out) + [(data, peerAddr.value)]
      ensures !ok ==> out == old(out)
    {
      ok := !closed && connected && written;
      if ok {
        out := out + [(data, peerAddr.value)];
      }
    }

    /** Nothing is encoded, and no nonce drawn, unless the transport is connected and open. */
    method SendBye(written: bool) returns (ok: bool)
      requires connected ==> peerAddr.Some?
      modifies this`out, codec`sendNonce
      ensures !connected || closed ==> ok && out == old(out) && codec.sendNonce == old(codec.sendNonce)
      ensures connected && !closed ==>
                && ok == written
                && codec.sendNonce == old(codec.NonceAfterSend())
                && out == old(out) + (if written then [(Seal(codec.auth, codec.sendNonce, Bye), peerAddr.value)] else [])
    {
      if !connected || closed {
        return true;
      }
      var bye := codec.EncodeBye();
      if written {
        out := out + [(bye, peerAddr.value)];
      }
      ok := written;
    }

    /** Closing is final and can be repeated. */
    method Close()
      modifies this`closed, this`connected
      ensures closed && connected == (old(closed) && old(connected))
    {
      if !closed {
        closed, connected := true, false;
      }
    }
  }

  // ----------------------------------------------------- what a handshake proves

  /** The tag separates challenges. */
  ghost predicate SeparatesChallenges(a: Auth) {
    forall c: Bytes, d: Bytes | |c| == |d| == CHALLENGE_SIZE && a.Tag(c) == a.Tag(d) :: c == d
  }

  /**
   In secure mode a HELLO_ACK made for some challenge is accepted by exactly the attempt
   that sent that challenge; every other attempt it reaches fails.
   */
  lemma AckJoinsItsOwnAttempt(a: Auth, sent: Bytes, answered: Bytes)
    requires a.Secure() && SeparatesChallenges(a)
    requires |sent| == |answered| == CHALLENGE_SIZE
    ensures OnAttempt(a, sent, Ok(HelloAck(PROTOCOL_VERSION, a.Response(answered)))) ==
            if sent == answered then Join else Refuse
  {
  }

  // ------------------------------------------------- one datagram, over the wire

  /** WaitForPeer answers a valid message that is no HELLO with a BYE to its source, and waits on. */
  lemma StrangerIsAsked(a: Auth, r: U64, nonce: U64, m: Message, src: Addr)
    requires m.Valid() && !m.Hello?
    requires a.Secure() && !m.HelloAck? ==> nonce == 0 || r < nonce
    ensures
      var turns := [Got(Seal(a, nonce, m), src)];
      StillWaits(a, r, turns, 0) && Asked(a, r, turns, 1) == [src]
  {
    hide Seal, Unseal;
    RoundTrip(a, r, nonce, m);
    assert Asked(a, r, [Got(Seal(a, nonce, m), src)], 0) == [];
  }

  /** It ignores a replay, and a datagram whose tag does not verify. */
  lemma JunkIsIgnored(a: Auth, r: U64, data: Bytes, src: Addr)
    requires Unseal(a, r, data).0.Err?
    ensures
      var turns := [Got(data, src)];
      StillWaits(a, r, turns, 0) && Asked(a, r, turns, 1) == []
  {
    assert Asked(a, r, [Got(data, src)], 0) == [];
  }

  lemma ForgeryIsIgnored(a: Auth, r: U64, data: Bytes, src: Addr)
    requires a.Secure() && !Authentic(a, data)
    ensures
      var turns := [Got(data, src)];
      StillWaits(a, r, turns, 0) && Asked(a, r, turns, 1) == [] && NonceAt(a, r, None, turns, 1) == r
  {
    hide Unseal, Authentic;
    ForgeryRefused(a, r, data);
    JunkIsIgnored(a, r, data, src);
    assert NonceAt(a, r, None, [Got(data, src)], 0) == r;
  }

  /** A HELLO ends the wait, whatever the receive nonce. */
  lemma HelloIsAccepted(a: Auth, r: U64, nonce: U64, challenge: Bytes, src: Addr)
    requires |challenge| == CHALLENGE_SIZE
    ensures
      var turns := [Got(Seal(a, nonce, Hello(PROTOCOL_VERSION, challenge)), src)];
      OnWaiting(Decoded(a, r, None, turns, 0)) == Accept(challenge)
  {
    hide Seal, Unseal;
    RoundTrip(a, r, nonce, Hello(PROTOCOL_VERSION, challenge));
  }

  /** Without a key, a first HELLO_ACK from the peer joins the attempt, whatever its response. */
  lemma AnyAckJoinsWithoutKey(a: Auth, r: U64, nonce: U64, peer: Addr, challenge: Bytes, response: Bytes, rest: seq<Read>)
    requires !a.Secure() && |response| == HMAC_SIZE
    ensures Joins(a, r, peer, challenge, [Got(Seal(a, nonce, HelloAck(PROTOCOL_VERSION, response)), peer)] + rest)
  {
    hide Seal, Unseal, Joins;
    var turns := [Got(Seal(a, nonce, HelloAck(PROTOCOL_VERSION, response)), peer)] + rest;
    RoundTrip(a, r, nonce, HelloAck(PROTOCOL_VERSION, response));
    assert NonceAt(a, r, Some(peer), turns, 0) == r;
    JoinsHere(a, r, peer, challenge, turns, 0);
  }

  /** With a key, a first HELLO_ACK from the peer joins exactly if its response is the tag of the challenge. */
  lemma AckJoinsWithKey(a: Auth, r: U64, nonce: U64, peer: Addr, challenge: Bytes, response: Bytes, rest: seq<Read>)
    requires a.Secure() && |response| == HMAC_SIZE && |challenge| == CHALLENGE_SIZE
    ensures
      var turns := [Got(Seal(a, nonce, HelloAck(PROTOCOL_VERSION, response)), peer)] + rest;
      Joins(a, r, peer, challenge, turns) <==> response == a.Tag(challenge)
  {
    hide Seal, Unseal, Joins;
    var turns := [Got(Seal(a, nonce, HelloAck(PROTOCOL_VERSION, response)), peer)] + rest;
    RoundTrip(a, r, nonce, HelloAck(PROTOCOL_VERSION, response));
    assert NonceAt(a, r, Some(peer), turns, 0) == r;
    if response == a.Tag(challenge) {
      JoinsHere(a, r, peer, challenge, turns, 0);
    } else {
      JoinsDecided(a, r, peer, challenge, turns, 0);
    }
  }

  /** What an attempt waits through: silence, other sources, junk, and messages that are no HELLO_ACK. */
  lemma AttemptGoesOn(a: Auth, r: U64, peer: Addr, challenge: Bytes, read: Read)
    requires
      || read.Timeout?
      || (read.Got? && read.src != peer)
      || (read.Got? && Unseal(a, r, read.data).0.Err?)
      || (read.Got? && exists nonce: U64, m: Message :: m.Valid() && !m.HelloAck? && read.data == Seal(a, nonce, m))
    ensures StillTries(a, r, peer, challenge, [read], 0)
  {
    hide Seal, Unseal;
    if read.Got? && Unseal(a, r, read.data).0.Ok? {
      if nonce: U64, m: Message :| m.Valid() && !m.HelloAck? && read.data == Seal(a, nonce, m) {
        RoundTrip(a, r, nonce, m);
      }
    }
  }

  /** A datagram from elsewhere does not move the attempt's receive nonce; one from the peer is decoded. */
  lemma AttemptNonce(a: Auth, r: U64, nonce: U64, m: Message, peer: Addr, src: Addr)
    requires a.Secure() && m.Valid() && !m.Handshake() && r < nonce
    ensures NonceAt(a, r, Some(peer), [Got(Seal(a, nonce, m), src)], 1) == if src == peer then nonce else r
  {
    hide Seal, Unseal;
    RoundTrip(a, r, nonce, m);
    assert NonceAt(a, r, Some(peer), [Got(Seal(a, nonce, m), src)], 0) == r;
  }
}
