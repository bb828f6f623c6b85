/**
 The wire protocol (internal/protocol/protocol.go): message layouts with and without
 a pre-shared key, the authentication tag, the receive-nonce check, and the codec that
 holds the two counters.

 HMAC-SHA256 is a function-valued parameter that returns 32 bytes; nothing else is
 assumed of it here.
 */
module Protocol {
  import opened ByteOrder

  const PROTOCOL_VERSION := 1

  const MSG_FRAME: Byte := 0
  const MSG_HELLO: Byte := 1
  const MSG_HELLO_ACK: Byte := 2
  const MSG_PING: Byte := 3
  const MSG_PONG: Byte := 4
  const MSG_BYE: Byte := 5

  const HMAC_SIZE := 32
  const CHALLENGE_SIZE := 16
  const MIN_ETHERNET_FRAME := 14
  const MAX_FRAME_SIZE := 1514
  const SECURE_HEADER_SIZE := 9

  datatype Error =
    | MessageTooShort
    | InvalidHMAC
    | ReplayDetected
    | UnknownMsgType
    | InvalidPayload
    | VersionMismatch
    | FrameSizeOutOfRange
    | NoRandomness

  datatype Result<+T> = Ok(value: T) | Err(error: Error)

  type Mac = f: (Bytes, Bytes) -> Bytes
    | forall key: Bytes, data: Bytes :: |f(key, data)| == HMAC_SIZE
    witness (key: Bytes, data: Bytes) => seq(HMAC_SIZE, _ => 0)

  /** A keyed tag function; an empty key means the codec runs in insecure mode. */
  datatype Auth = Auth(mac: Mac, key: Bytes) {
    predicate Secure() {
      |key| > 0
    }

    function Tag(data: Bytes): (tag: Bytes)
      ensures |tag| == HMAC_SIZE
    {
      mac(key, data)
    }

    /** `VerifyChallengeResponse`. */
    predicate VerifyResponse(challenge: Bytes, response: Bytes) {
      !Secure()
      || (|challenge| == CHALLENGE_SIZE && |response| == HMAC_SIZE && Tag(challenge) == response)
    }

    /** What EncodeHelloAck puts in the response field. */
    function Response(challenge: Bytes): (response: Bytes)
      ensures |response| == HMAC_SIZE
    {
      if Secure() && |challenge| == CHALLENGE_SIZE then Tag(challenge) else seq(HMAC_SIZE, _ => 0)
    }
  }

  datatype Message =
    | Frame(frame: Bytes)
    | Hello(version: nat, challenge: Bytes)
    | HelloAck(version: nat, response: Bytes)
    | Ping(timestamp: I64)
    | Pong(timestamp: I64)
    | Bye
  {
    /** The messages the EncodeX functions can produce. */
    predicate Valid() {
      match this
      case Frame(f) => MIN_ETHERNET_FRAME <= |f| <= MAX_FRAME_SIZE
      case Hello(v, c) => v == PROTOCOL_VERSION && |c| == CHALLENGE_SIZE
      case HelloAck(v, r) => v == PROTOCOL_VERSION && |r| == HMAC_SIZE
      case _ => true
    }

    /** HELLO and HELLO_ACK bypass the receive-nonce check. */
    predicate Handshake() {
      Hello? || HelloAck?
    }

    function Kind(): Byte {
      match this
      case Frame(_) => MSG_FRAME
      case Hello(_, _) => MSG_HELLO
      case HelloAck(_, _) => MSG_HELLO_ACK
      case Ping(_) => MSG_PING
      case Pong(_) => MSG_PONG
      case Bye => MSG_BYE
    }

    function Payload(): Bytes {
      match this
      case Frame(f) => f
      case Hello(v, c) => BigEndian(v, 2) + c
      case HelloAck(v, r) => BigEndian(v, 2) + r
      case Ping(t) => BigEndian(ToU64(t), 8)
      case Pong(t) => BigEndian(ToU64(t), 8)
      case Bye => []
    }
  }

  // ---------------------------------------------------------------- encoding

  /** The authenticated part of a secure datagram: type, nonce, payload. */
  function Prefix(kind: Byte, nonce: U64, payload: Bytes): (p: Bytes)
    ensures |p| == SECURE_HEADER_SIZE + |payload|
  {
    [kind] + BigEndian(nonce, 8) + payload
  }

  /** The datagram for a message; the nonce and the tag exist in secure mode only. */
  function Wire(a: Auth, kind: Byte, nonce: U64, payload: Bytes): Bytes {
    if a.Secure() then
      Prefix(kind, nonce, payload) + a.Tag(Prefix(kind, nonce, payload))
    else
      [kind] + payload
  }

  /** The datagram an EncodeX call produces for `m` when it draws `nonce`. */
  function Seal(a: Auth, nonce: U64, m: Message): Bytes {
    Wire(a, m.Kind(), nonce, m.Payload())
  }

  // ---------------------------------------------------------------- decoding

  /** The datagram is long enough and its tag matches its prefix. */
  predicate Authentic(a: Auth, data: Bytes) {
    && |data| >= SECURE_HEADER_SIZE + HMAC_SIZE
    && a.Tag(data[..|data| - HMAC_SIZE]) == data[|data| - HMAC_SIZE..]
  }

  /** `decode`: the type, the payload and the new value of `recvNonce`. */
  function Open(a: Auth, recvNonce: U64, data: Bytes): (Result<(Byte, Bytes)>, U64) {
    if |data| < 1 then
      (Err(MessageTooShort), recvNonce)
    else if !a.Secure() then
      (Ok((data[0], data[1..])), recvNonce)
    else if |data| < SECURE_HEADER_SIZE + HMAC_SIZE then
      (Err(MessageTooShort), recvNonce)
    else if !Authentic(a, data) then
      (Err(InvalidHMAC), recvNonce)
    else
      Words64(0, data[1..9]);
      var nonce := Value(data[1..9]);
      var payload := data[9..|data| - HMAC_SIZE];
      if data[0] == MSG_HELLO || data[0] == MSG_HELLO_ACK then
        (Ok((data[0], payload)), recvNonce)
      else if 0 < nonce <= recvNonce then
        (Err(ReplayDetected), recvNonce)
      else
        (Ok((data[0], payload)), nonce)
  }

  /** The switch in `Decode` that reads the payload. */
  function Interpret(kind: Byte, payload: Bytes): Result<Message> {
    if kind == MSG_FRAME then
      if |payload| < MIN_ETHERNET_FRAME || |payload| > MAX_FRAME_SIZE then Err(InvalidPayload)
      else Ok(Frame(payload))
    else if kind == MSG_HELLO then
      if |payload| < 2 + CHALLENGE_SIZE then Err(InvalidPayload)
      else if Value(payload[..2]) != PROTOCOL_VERSION then Err(VersionMismatch)
      else Ok(Hello(PROTOCOL_VERSION, payload[2..2 + CHALLENGE_SIZE]))
    else if kind == MSG_HELLO_ACK then
      if |payload| < 2 + HMAC_SIZE then Err(InvalidPayload)
      else if Value(payload[..2]) != PROTOCOL_VERSION then Err(VersionMismatch)
      else Ok(HelloAck(PROTOCOL_VERSION, payload[2..2 + HMAC_SIZE]))
    else if kind == MSG_PING || kind == MSG_PONG then
      if |payload| < 8 then Err(InvalidPayload)
      else
        Words64(0, payload[..8]);
        var t := ToI64(Value(payload[..8]));
        Ok(if kind == MSG_PING then Ping(t) else Pong(t))
    else if kind == MSG_BYE then
      Ok(Bye)
    else
      Err(UnknownMsgType)
  }

  /** `Decode`: the message and the new value of `recvNonce`. */
  function Unseal(a: Auth, recvNonce: U64, data: Bytes): (Result<Message>, U64) {
    var (unwrapped, recvNonce') := Open(a, recvNonce, data);
    match unwrapped
    case Err(e) => (Err(e), recvNonce')
    case Ok((kind, payload)) => (Interpret(kind, payload), recvNonce')
  }

  // -------------------------------------------------------------- properties

  /** Reading back the pieces of an authenticated prefix. */
  lemma PrefixParts(kind: Byte, nonce: U64, payload: Bytes)
    ensures
      var p := Prefix(kind, nonce, payload);
      p[0] == kind && p[1..9] == BigEndian(nonce, 8) && p[9..] == payload && Value(p[1..9]) == nonce
  {
    var p := Prefix(kind, nonce, payload);
    assert p[1..9] == BigEndian(nonce, 8);
    Words64(nonce, p[1..9]);
  }

  /** The authenticated prefix determines type, nonce and payload. */
  lemma PrefixInjective(k1: Byte, n1: U64, p1: Bytes, k2: Byte, n2: U64, p2: Bytes)
    requires Prefix(k1, n1, p1) == Prefix(k2, n2, p2)
    ensures k1 == k2 && n1 == n2 && p1 == p2
  {
    PrefixParts(k1, n1, p1);
    PrefixParts(k2, n2, p2);
  }

  /** The two senders share one key, but a message tag is never computed on a challenge. */
  lemma TagInputsDisjoint(m: Message, nonce: U64, challenge: Bytes)
    requires m.Valid() && |challenge| == CHALLENGE_SIZE
    ensures Prefix(m.Kind(), nonce, m.Payload()) != challenge
  {
  }

  /** Opening an encoder's own datagram returns what went in, unless it is a replay. */
  lemma OpenWire(a: Auth, recvNonce: U64, kind: Byte, nonce: U64, payload: Bytes)
    ensures
      Open(a, recvNonce, Wire(a, kind, nonce, payload)) ==
      if !a.Secure() || kind == MSG_HELLO || kind == MSG_HELLO_ACK then
        (Ok((kind, payload)), recvNonce)
      else if 0 < nonce <= recvNonce then
        (Err(ReplayDetected), recvNonce)
      else
        (Ok((kind, payload)), nonce)
    ensures a.Secure() ==> Authentic(a, Wire(a, kind, nonce, payload))
  {
    var w := Wire(a, kind, nonce, payload);
    if a.Secure() {
      var p := Prefix(kind, nonce, payload);
      var n := |w| - HMAC_SIZE;
      assert w[..n] == p && w[n..] == a.Tag(p);
      PrefixParts(kind, nonce, payload);
      assert w[1..9] == p[1..9];
      assert w[9..n] == p[9..];
    } else {
      assert w[1..] == payload;
    }
  }

  /** The payload of a valid message reads back as that message. */
  lemma InterpretPayload(m: Message)
    requires m.Valid()
    ensures Interpret(m.Kind(), m.Payload()) == Ok(m)
  {
    var p := m.Payload();
    match m
    case Frame(_) =>
    case Hello(v, c) =>
      assert p[..2] == BigEndian(v, 2) && p[2..2 + CHALLENGE_SIZE] == c;
      Words16(v, p[..2]);
    case HelloAck(v, r) =>
      assert p[..2] == BigEndian(v, 2) && p[2..2 + HMAC_SIZE] == r;
      Words16(v, p[..2]);
    case Ping(t) =>
      assert p[..8] == p;
      Words64(ToU64(t), p);
    case Pong(t) =>
      assert p[..8] == p;
      Words64(ToU64(t), p);
    case Bye =>
  }

  /**
   Round trip, with the exact exception: decoding what an equal key sealed gives the
   message back and moves `recvNonce` to its nonce, except that a secure non-handshake
   message with a nonce in 1..recvNonce is refused and moves nothing.
   */
  lemma RoundTrip(a: Auth, recvNonce: U64, nonce: U64, m: Message)
    requires m.Valid()
    ensures
      Unseal(a, recvNonce, Seal(a, nonce, m)) ==
      if a.Secure() && !m.Handshake() then
        if 0 < nonce <= recvNonce then (Err(ReplayDetected), recvNonce) else (Ok(m), nonce)
      else
        (Ok(m), recvNonce)
    ensures a.Secure() ==> Authentic(a, Seal(a, nonce, m))
  {
    OpenWire(a, recvNonce, m.Kind(), nonce, m.Payload());
    InterpretPayload(m);
  }

  /** A payload the decoder accepts starts with the payload of the message it yields. */
  lemma InterpretedPayload(kind: Byte, payload: Bytes)
    requires Interpret(kind, payload).Ok?
    ensures
      var m := Interpret(kind, payload).value;
      && m.Valid() && m.Kind() == kind
      && m.Payload() <= payload
      && (m.Frame? ==> m.Payload() == payload)
  {
    var m := Interpret(kind, payload).value;
    if m.Hello? || m.HelloAck? {
      Words16(0, payload[..2]);
      assert BigEndian(PROTOCOL_VERSION, 2) == payload[..2];
      assert m.Payload() == payload[..|m.Payload()|];
    } else if m.Ping? || m.Pong? {
      Words64(0, payload[..8]);
      assert ToU64(m.timestamp) == Value(payload[..8]);
    }
  }

  /** An opened datagram is the wire form of what was read from it. */
  lemma OpenedForm(a: Auth, recvNonce: U64, data: Bytes) returns (nonce: U64)
    requires Open(a, recvNonce, data).0.Ok?
    ensures
      var (kind, payload) := Open(a, recvNonce, data).0.value;
      && data == Wire(a, kind, nonce, payload)
      && (a.Secure() && kind != MSG_HELLO && kind != MSG_HELLO_ACK ==>
            Open(a, recvNonce, data).1 == nonce && (nonce == 0 || recvNonce < nonce))
  {
    var (kind, payload) := Open(a, recvNonce, data).0.value;
    nonce := 0;
    if a.Secure() {
      var n := |data| - HMAC_SIZE;
      Words64(0, data[1..9]);
      nonce := Value(data[1..9]);
      assert data[..n] == Prefix(kind, nonce, payload);
      assert data == data[..n] + data[n..];
    } else {
      assert data == [kind] + payload;
    }
  }

  lemma Remainder(p: Bytes, q: Bytes)
    requires p <= q
    ensures q == p + q[|p|..] && (p == q ==> q[|p|..] == [])
  {
  }

  /**
   Canonical parse: in either mode an accepted datagram is an encoding of the message
   it yields, up to bytes after the payload, and a frame carries no such bytes.
   */
  lemma CanonicalParse(a: Auth, recvNonce: U64, data: Bytes) returns (nonce: U64, extra: Bytes)
    requires Unseal(a, recvNonce, data).0.Ok?
    ensures
      var m := Unseal(a, recvNonce, data).0.value;
      && m.Valid()
      && data == Wire(a, m.Kind(), nonce, m.Payload() + extra)
      && (m.Frame? ==> extra == [] && data == Seal(a, nonce, m))
      && (!a.Secure() ==> data == Seal(a, nonce, m) + extra)
      && (a.Secure() && !m.Handshake() ==>
            Unseal(a, recvNonce, data).1 == nonce && (nonce == 0 || recvNonce < nonce))
  {
    var (kind, payload) := Open(a, recvNonce, data).0.value;
    var m := Unseal(a, recvNonce, data).0.value;
    hide Open, Interpret;
    nonce := OpenedForm(a, recvNonce, data);
    InterpretedPayload(kind, payload);
    extra := payload[|m.Payload()|..];
    Remainder(m.Payload(), payload);
    if !a.Secure() {
      assert [kind] + (m.Payload() + extra) == [kind] + m.Payload() + extra;
    }
  }

  /**
   What each rejection does to `recvNonce`: too-short, bad-tag and replay rejections
   leave it alone; a rejected payload of an authentic non-handshake datagram has
   already stored the nonce.
   */
  lemma RejectionAndNonce(a: Auth, recvNonce: U64, data: Bytes)
    requires Unseal(a, recvNonce, data).0.Err?
    ensures
      var (r, recvNonce') := Unseal(a, recvNonce, data);
      if r.error == MessageTooShort || r.error == InvalidHMAC || r.error == ReplayDetected || !a.Secure() then
        recvNonce' == recvNonce
      else if data[0] == MSG_HELLO || data[0] == MSG_HELLO_ACK then
        Authentic(a, data) && recvNonce' == recvNonce
      else
        Authentic(a, data) && recvNonce' == Value(data[1..9]) && (recvNonce' == 0 || recvNonce < recvNonce')
  {
  }

  /** A datagram without a valid tag is refused and changes nothing. */
  lemma ForgeryRefused(a: Auth, recvNonce: U64, data: Bytes)
    requires a.Secure() && !Authentic(a, data)
    ensures Unseal(a, recvNonce, data).0.Err? && Unseal(a, recvNonce, data).1 == recvNonce
  {
  }

  /** The first byte, and the payload, of each message on the wire. */
  ghost predicate WireBody(m: Message, kind: Byte, payload: Bytes) {
    match m
    case Frame(f) => kind == 0x00 && payload == f
    case Hello(_, challenge) => kind == 0x01 && payload == [0x00, 0x01] + challenge
    case HelloAck(_, response) => kind == 0x02 && payload == [0x00, 0x01] + response
    case Ping(t) => kind == 0x03 && |payload| == 8 && Value(payload) == ToU64(t)
    case Pong(t) => kind == 0x04 && |payload| == 8 && Value(payload) == ToU64(t)
    case Bye => kind == 0x05 && payload == []
  }

  /**
   The wire format: type, with a key an 8-byte nonce, payload, and with a key the tag of
   everything before it.
   */
  lemma WireLayout(a: Auth, nonce: U64, m: Message)
    requires m.Valid()
    ensures
      var d := Seal(a, nonce, m);
      if a.Secure() then
        && |d| >= 41 && Value(d[1..9]) == nonce && d[|d| - 32..] == a.Tag(d[..|d| - 32])
        && WireBody(m, d[0], d[9..|d| - 32])
      else
        |d| >= 1 && WireBody(m, d[0], d[1..])
  {
    var d, p := Seal(a, nonce, m), m.Payload();
    BodyOf(m);
    if a.Secure() {
      PrefixParts(m.Kind(), nonce, p);
      var prefix := Prefix(m.Kind(), nonce, p);
      assert d[..|d| - 32] == prefix && d[1..9] == prefix[1..9] && d[9..|d| - 32] == prefix[9..];
    } else {
      assert d[1..] == p;
    }
  }

  lemma BodyOf(m: Message)
    requires m.Valid()
    ensures WireBody(m, m.Kind(), m.Payload())
  {
    if m.Ping? || m.Pong? {
      Words64(ToU64(m.timestamp), m.Payload());
    }
    assert BigEndian(1, 2) == [0x00, 0x01] by {
      assert BigEndian(1, 2) == BigEndian(0, 1) + [1] && BigEndian(0, 1) == BigEndian(0, 0) + [0];
    }
  }

  /**
   Challenge and response: with a key exactly the tag of a 16-byte challenge verifies, and it
   is what a HELLO_ACK carries; without a key it carries zeros and anything verifies.
   */
  lemma ResponseVerifies(a: Auth, challenge: Bytes, response: Bytes)
    ensures a.Secure() && |challenge| == 16 ==>
              && (a.VerifyResponse(challenge, response) <==> response == a.Tag(challenge))
              && a.Response(challenge) == a.Tag(challenge)
    ensures a.Secure() && |challenge| != 16 ==> !a.VerifyResponse(challenge, response)
    ensures !a.Secure() ==> a.VerifyResponse(challenge, response)
    ensures !a.Secure() || |challenge| != 16 ==> forall i | 0 <= i < 32 :: a.Response(challenge)[i] == 0
  {
  }

  /** Why a datagram with a fresh nonce and a good tag is refused, if it is. */
  lemma RejectionReasons(a: Auth, recvNonce: U64, kind: Byte, nonce: U64, payload: Bytes)
    requires a.Secure() ==> recvNonce < nonce
    ensures
      var r := Unseal(a, recvNonce, Wire(a, kind, nonce, payload)).0;
      var least := if kind == 0 then 14 else if kind == 1 then 18 else if kind == 2 then 34 else if kind <= 4 then 8 else 0;
      && (r == Err(UnknownMsgType) <==> kind > 5)
      && (r == Err(InvalidPayload) <==> kind <= 5 && (|payload| < least || (kind == 0 && |payload| > 1514)))
      && (r == Err(VersionMismatch) <==> kind in {1, 2} && |payload| >= least && Value(payload[..2]) != 1)
      && (r.Err? ==> r.error in {UnknownMsgType, InvalidPayload, VersionMismatch})
  {
    hide Open, Wire;
    OpenWire(a, recvNonce, kind, nonce, payload);
  }

  /** The earlier refusals: length, then tag, then replay. */
  lemma EarlyRejections(a: Auth, recvNonce: U64, data: Bytes)
    ensures
      var r := Unseal(a, recvNonce, data).0;
      && (r == Err(MessageTooShort) <==> |data| < if a.Secure() then 41 else 1)
      && (r == Err(InvalidHMAC) <==>
            a.Secure() && |data| >= 41 && a.Tag(data[..|data| - 32]) != data[|data| - 32..])
      && (r == Err(ReplayDetected) <==>
            a.Secure() && Authentic(a, data) && data[0] !in {1, 2} && 0 < Value(data[1..9]) <= recvNonce)
  {
  }

  // ------------------------------------------------------------------- codec

  /** Codec: one per process, shared by every session (cmd/xbslink-ng/main.go). */
  class Codec {
    const auth: Auth
    var sendNonce: U64
    var recvNonce: U64

    constructor (mac: Mac, key: Bytes)
      ensures auth == Auth(mac, key) && sendNonce == 0 && recvNonce == 0
    {
      auth := Auth(mac, key);
      sendNonce, recvNonce := 0, 0;
    }

    /** `atomic.AddUint64(&c.sendNonce, 1)`, which wraps at 2^64. */
    method NextNonce() returns (nonce: U64)
      modifies this`sendNonce
      ensures sendNonce == nonce == (old(sendNonce) + 1) % TWO_64
    {
      sendNonce := (sendNonce + 1) % TWO_64;
      nonce := sendNonce;
    }

    /** Only secure mode draws a nonce. */
    ghost function NonceAfterSend(): U64
      reads this
    {
      if auth.Secure() then (sendNonce + 1) % TWO_64 else sendNonce
    }

    method Encode(kind: Byte, payload: Bytes) returns (msg: array<Byte>)
      modifies this`sendNonce
      ensures fresh(msg) && sendNonce == old(NonceAfterSend())
      ensures msg[..] == Wire(auth, kind, sendNonce, payload)
    {
      if auth.Secure() {
        var nonce := NextNonce();
        msg := new Byte[SECURE_HEADER_SIZE + |payload| + HMAC_SIZE];
        msg[0] := kind;
        PutBigEndian(msg, 1, 8, nonce);
        CopyInto(msg, 9, payload);
        assert msg[..9 + |payload|] == Prefix(kind, nonce, payload);
        var tag := auth.Tag(msg[..9 + |payload|]);
        CopyInto(msg, 9 + |payload|, tag);
        assert msg[..9 + |payload|] == Prefix(kind, nonce, payload);
        assert msg[..] == msg[..9 + |payload|] + msg[9 + |payload|..];
      } else {
        msg := new Byte[1 + |payload|];
        msg[0] := kind;
        CopyInto(msg, 1, payload);
        assert msg[..] == [kind] + msg[1..1 + |payload|];
      }
    }

    /** Frames of an impossible size are refused before a nonce is drawn. */
    method EncodeFrame(frame: Bytes) returns (r: Result<Bytes>)
      modifies this`sendNonce
      ensures r.Ok? <==> Frame(frame).Valid()
      ensures r.Ok? ==> sendNonce == old(NonceAfterSend()) && r.value == Seal(auth, sendNonce, Frame(frame))
      ensures r.Err? ==> r.error == FrameSizeOutOfRange && sendNonce == old(sendNonce)
    {
      if |frame| < MIN_ETHERNET_FRAME || |frame| > MAX_FRAME_SIZE {
        return Err(FrameSizeOutOfRange);
      }
      var msg := Encode(MSG_FRAME, frame);
      return Ok(msg[..]);
    }

    /** The handshake payloads start with the protocol version. */
    static method VersionedPayload(body: Bytes) returns (payload: array<Byte>)
      ensures fresh(payload) && payload[..] == BigEndian(PROTOCOL_VERSION, 2) + body
    {
      payload := new Byte[2 + |body|](_ => 0);
      PutBigEndian(payload, 0, 2, PROTOCOL_VERSION);
      CopyInto(payload, 2, body);
      assert payload[..] == payload[0..0 + 2] + payload[2..2 + |body|];
    }

    /** `random` is what the system's generator returned, if anything. */
    method EncodeHello(random: Result<Bytes>) returns (r: Result<(Bytes, Bytes)>)
      requires random.Ok? ==> |random.value| == CHALLENGE_SIZE
      modifies this`sendNonce
      ensures r.Ok? <==> random.Ok?
      ensures r.Ok? ==>
                && sendNonce == old(NonceAfterSend())
                && r.value == (Seal(auth, sendNonce, Hello(PROTOCOL_VERSION, random.value)), random.value)
      ensures r.Err? ==> sendNonce == old(sendNonce)
    {
      if random.Err? {
        return Err(NoRandomness);
      }
      var payload := VersionedPayload(random.value);
      var msg := Encode(MSG_HELLO, payload[..]);
      return Ok((msg[..], random.value));
    }

    method EncodeHelloAck(challenge: Bytes) returns (r: Bytes)
      modifies this`sendNonce
      ensures sendNonce == old(NonceAfterSend())
      ensures r == Seal(auth, sendNonce, HelloAck(PROTOCOL_VERSION, auth.Response(challenge)))
    {
      var response: Bytes := seq(HMAC_SIZE, _ => 0);
      if auth.Secure() && |challenge| == CHALLENGE_SIZE {
        response := auth.Tag(challenge);
      }
      var payload := VersionedPayload(response);
      var msg := Encode(MSG_HELLO_ACK, payload[..]);
      return msg[..];
    }

    /** EncodePing and EncodePong differ in the type byte only. */
    method EncodePingPong(m: Message) returns (r: Bytes)
      requires m.Ping? || m.Pong?
      modifies this`sendNonce
      ensures sendNonce == old(NonceAfterSend()) && r == Seal(auth, sendNonce, m)
    {
      var payload := new Byte[8];
      PutBigEndian(payload, 0, 8, ToU64(m.timestamp));
      assert payload[..] == payload[0..0 + 8];
      var msg := Encode(m.Kind(), payload[..]);
      return msg[..];
    }

    method EncodeBye() returns (r: Bytes)
      modifies this`sendNonce
      ensures sendNonce == old(NonceAfterSend()) && r == Seal(auth, sendNonce, Bye)
    {
      var msg := Encode(MSG_BYE, []);
      return msg[..];
    }

    method Decode(data: Bytes) returns (r: Result<Message>)
      modifies this`recvNonce
      ensures (r, recvNonce) == Unseal(auth, old(recvNonce), data)
    {
      var unwrapped := DecodeRaw(data);
      match unwrapped
      case Err(e) => r := Err(e);
      case Ok((kind, payload)) => r := Interpret(kind, payload);
    }

    /** `decode`: header, tag and nonce checks, in that order. */
    method DecodeRaw(data: Bytes) returns (r: Result<(Byte, Bytes)>)
      modifies this`recvNonce
      ensures (r, recvNonce) == Open(auth, old(recvNonce), data)
    {
      if |data| < 1 {
        return Err(MessageTooShort);
      }
      if auth.Secure() {
        if |data| < SECURE_HEADER_SIZE + HMAC_SIZE {
          return Err(MessageTooShort);
        }
        Words64(0, data[1..9]);
        var kind, nonce := data[0], Value(data[1..9]);
        var payloadEnd := |data| - HMAC_SIZE;
        if auth.Tag(data[..payloadEnd]) != data[payloadEnd..] {
          return Err(InvalidHMAC);
        }
        if kind != MSG_HELLO && kind != MSG_HELLO_ACK {
          if nonce > 0 && nonce <= recvNonce {
            return Err(ReplayDetected);
          }
          recvNonce := nonce;
        }
        return Ok((kind, data[9..payloadEnd]));
      }
      return Ok((data[0], data[1..]));
    }

    method ResetRecvNonce()
      modifies this`recvNonce
      ensures recvNonce == 0
    {
      recvNonce := 0;
    }
  }
}
