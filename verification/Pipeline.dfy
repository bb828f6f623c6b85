/**
 The frame queues of a connected bridge (internal/bridge/bridge.go): captureLoop fills
 a channel of 256 frames and drops when it is full, sendLoop takes one frame at a time,
 encodes it and writes it out; handleFrame fills a second channel for injectLoop.

 A run is any sequence of steps of these goroutines; a step whose goroutine is not at
 that point changes nothing.
 */
module Pipeline {
  import opened ByteOrder
  import opened Sequences
  import Protocol

  const CAPACITY := 256

  /** The frame sendLoop holds, by its position among the captured frames. */
  datatype Hand =
    | Empty
    | Taken(frame: nat)      // received from the channel, not yet encoded
    | Coded(frame: nat)      // encoded, not yet written
  {
    function Held(): seq<nat> {
      if Empty? then [] else [frame]
    }
  }

  datatype Tx = Tx(
    captured: seq<Bytes>,    // every frame captureLoop read, in order
    queue: seq<nat>,         // framesToSend
    hand: Hand,
    encoded: seq<nat>,       // frames that were given a nonce
    sent: seq<nat>,          // frames written to the socket
    dropped: nat,            // channel full
    rejected: nat,           // refused by EncodeFrame
    failed: nat,             // refused by Send
    txPackets: nat,
    txBytes: nat
  )

  const TX_START := Tx([], [], Empty, [], [], 0, 0, 0, 0, 0)

  datatype TxStep =
    | Capture(frame: Bytes)
    | Dequeue
    | Encode
    | Write(ok: bool)

  function TxDo(t: Tx, a: TxStep): Tx {
    match a
    case Capture(f) =>
      var t' := t.(captured := t.captured + [f]);
      if |t.queue| < CAPACITY then t'.(queue := t.queue + [|t.captured|])
      else t'.(dropped := t.dropped + 1)
    case Dequeue =>
      if t.hand.Empty? && t.queue != [] then t.(hand := Taken(t.queue[0]), queue := t.queue[1..]) else t
    case Encode =>
      if !t.hand.Taken? || t.hand.frame >= |t.captured| then t
      else if Protocol.Frame(t.captured[t.hand.frame]).Valid() then
        t.(hand := Coded(t.hand.frame), encoded := t.encoded + [t.hand.frame])
      else
        t.(hand := Empty, rejected := t.rejected + 1)
    case Write(ok) =>
      if !t.hand.Coded? || t.hand.frame >= |t.captured| then t
      else if ok then
        t.(hand := Empty, sent := t.sent + [t.hand.frame],
           txPackets := t.txPackets + 1, txBytes := t.txBytes + |t.captured[t.hand.frame]|)
      else
        t.(hand := Empty, failed := t.failed + 1)
  }

  function TxRun(steps: seq<TxStep>): Tx {
    if steps == [] then TX_START else TxDo(TxRun(steps[..|steps| - 1]), steps[|steps| - 1])
  }

  /** The bytes of the frames at the given positions. */
  function TotalLength(captured: seq<Bytes>, at: seq<nat>): nat
    requires Below(at, |captured|)
  {
    if at == [] then 0
    else TotalLength(captured, at[..|at| - 1]) + |captured[at[|at| - 1]]|
  }

  /** `line` holds distinct frames in capture order. */
  ghost predicate InLine(t: Tx, line: seq<nat>) {
    Increasing(line) && Below(line, |t.captured|)
  }

  /** The frames that have a nonce, then those that may still get one. */
  function EncodedLine(t: Tx): seq<nat> {
    t.encoded + (if t.hand.Taken? then [t.hand.frame] else []) + t.queue
  }

  /** The frames written to the socket, then those that may still be. */
  function SentLine(t: Tx): seq<nat> {
    t.sent + t.hand.Held() + t.queue
  }

  /**
   What holds at every step. Frames are given nonces, and reach the socket, in capture
   order; the channel never exceeds its capacity; every captured frame is counted once.
   */
  ghost predicate TxInv(t: Tx) {
    TxLines(t) && TxEncoded(t) && TxConserved(t)
  }

  ghost predicate TxLines(t: Tx) {
    InLine(t, EncodedLine(t)) && InLine(t, SentLine(t))
  }

  /** Only frames of a legal size get a nonce. */
  ghost predicate TxEncoded(t: Tx) {
    && |t.queue| <= CAPACITY
    && (t.hand.Coded? ==> t.encoded != [] && t.encoded[|t.encoded| - 1] == t.hand.frame)
    && (forall k | 0 <= k < |t.encoded| ::
          t.encoded[k] < |t.captured| && Protocol.Frame(t.captured[t.encoded[k]]).Valid())
  }

  /** Frame conservation, with the frame sendLoop holds as the only slack. */
  ghost predicate TxConserved(t: Tx) {
    && |t.captured| == t.txPackets + |t.queue| + t.dropped + t.rejected + t.failed + |t.hand.Held()|
    && |t.encoded| == t.txPackets + t.failed + (if t.hand.Coded? then 1 else 0)
    && t.txPackets == |t.sent|
    && Below(t.sent, |t.captured|)
    && t.txBytes == TotalLength(t.captured, t.sent)
  }

  lemma {:induction false} TotalLengthExtends(c: seq<Bytes>, c': seq<Bytes>, at: seq<nat>)
    requires c <= c' && Below(at, |c|)
    ensures TotalLength(c', at) == TotalLength(c, at)
  {
    if at != [] {
      TotalLengthExtends(c, c', at[..|at| - 1]);
    }
  }

  /** A step keeps a line, appends the newest frame to it, or takes one frame out. */
  predicate Moves(t: Tx, line: seq<nat>, t': Tx, line': seq<nat>, at: nat) {
    || (line' == line && |t'.captured| >= |t.captured|)
    || (line' == line + [|t.captured|] && |t'.captured| == |t.captured| + 1)
    || (at < |line| && line' == line[..at] + line[at + 1..] && |t'.captured| == |t.captured|)
  }

  lemma MoveKeepsLine(t: Tx, line: seq<nat>, t': Tx, line': seq<nat>, at: nat)
    requires InLine(t, line) && Moves(t, line, t', line', at)
    ensures InLine(t', line')
  {
  }

  lemma EncodedLineMoves(t: Tx, a: TxStep)
    ensures Moves(t, EncodedLine(t), TxDo(t, a), EncodedLine(TxDo(t, a)), |t.encoded|)
  {
  }

  lemma SentLineMoves(t: Tx, a: TxStep)
    ensures Moves(t, SentLine(t), TxDo(t, a), SentLine(TxDo(t, a)), |t.sent|)
  {
  }

  lemma TxConservedStep(t: Tx, a: TxStep)
    requires TxConserved(t)
    ensures TxConserved(TxDo(t, a))
  {
    var t' := TxDo(t, a);
    if a.Capture? {
      TotalLengthExtends(t.captured, t'.captured, t.sent);
    } else if t'.sent != t.sent {
      assert t'.sent[..|t.sent|] == t.sent;
    }
  }

  lemma TxLinesStep(t: Tx, a: TxStep)
    requires TxLines(t)
    ensures TxLines(TxDo(t, a))
  {
    var t' := TxDo(t, a);
    EncodedLineMoves(t, a);
    SentLineMoves(t, a);
    MoveKeepsLine(t, EncodedLine(t), t', EncodedLine(t'), |t.encoded|);
    MoveKeepsLine(t, SentLine(t), t', SentLine(t'), |t.sent|);
  }

  lemma TxEncodedStep(t: Tx, a: TxStep)
    requires TxEncoded(t)
    ensures TxEncoded(TxDo(t, a))
  {
  }

  lemma TxStepKeeps(t: Tx, a: TxStep)
    requires TxInv(t)
    ensures TxInv(TxDo(t, a))
  {
    TxLinesStep(t, a);
    TxEncodedStep(t, a);
    TxConservedStep(t, a);
  }

  lemma {:induction false} TxRunKeeps(steps: seq<TxStep>)
    ensures TxInv(TxRun(steps))
  {
    if steps != [] {
      TxRunKeeps(steps[..|steps| - 1]);
      TxStepKeeps(TxRun(steps[..|steps| - 1]), steps[|steps| - 1]);
    }
  }

  /**
   In every run, the frames written to the socket are an order-keeping, duplicate-free
   selection of the captured frames, and captured = TxPackets + queued + dropped +
   rejected + failed + at most one in hand, with TxBytes the length of what was written.
   */
  lemma FramesConserved(steps: seq<TxStep>)
    ensures
      var t := TxRun(steps);
      && Increasing(t.sent) && Below(t.sent, |t.captured|)
      && |t.queue| <= CAPACITY && |t.hand.Held()| <= 1
      && |t.captured| == t.txPackets + |t.queue| + t.dropped + t.rejected + t.failed + |t.hand.Held()|
      && t.txPackets == |t.sent|
      && t.txBytes == TotalLength(t.captured, t.sent)
  {
    TxRunKeeps(steps);
    var t := TxRun(steps);
    assert SentLine(t)[..|t.sent|] == t.sent;
  }

  // -------------------------------------------------- the queue as frames

  lemma TxNext(steps: seq<TxStep>, a: TxStep)
    ensures TxRun(steps + [a]) == TxDo(TxRun(steps), a)
  {
  }

  /** The frames in the channel. */
  function Queued(t: Tx): seq<Bytes>
    requires Below(t.queue, |t.captured|)
  {
    Select(t.captured, t.queue)
  }

  lemma QueueBelow(t: Tx)
    requires TxLines(t)
    ensures Below(t.queue, |t.captured|)
  {
    var line, n := SentLine(t), |t.sent + t.hand.Held()|;
    assert forall i | 0 <= i < |t.queue| :: line[n + i] == t.queue[i];
  }

  lemma QueuedCapture(t: Tx, f: Bytes)
    requires Below(t.queue, |t.captured|)
    ensures
      var t' := TxDo(t, Capture(f));
      && Below(t'.queue, |t'.captured|)
      && Queued(t') == Queued(t) + (if |t.queue| < CAPACITY then [f] else [])
  {
    SelectGrows(t.captured, f, t.queue);
  }

  /** A turn of sendLoop: the next frame leaves the channel, and is counted if it was written. */
  lemma QueuedSend(t: Tx, ok: bool)
    requires Below(t.queue, |t.captured|) && t.hand.Empty? && t.queue != []
    ensures
      var t' := TxDo(TxDo(TxDo(t, Dequeue), Encode), Write(ok));
      var f := Queued(t)[0];
      var counted := ok && Protocol.Frame(f).Valid();
      && t'.hand.Empty? && Below(t'.queue, |t'.captured|) && Queued(t') == Queued(t)[1..]
      && t'.txPackets == t.txPackets + (if counted then 1 else 0)
      && t'.txBytes == t.txBytes + (if counted then |f| else 0)
  {
  }

  // ----------------------------------------------------------------- receive

  /**
   The inject side. A queued frame is named by its position among the frames passed to
   handleFrame: the channel holds a slice of the receive buffer, so its bytes are not
   fixed until it is injected (see module RecvBuffer).
   */
  datatype Rx = Rx(
    handled: seq<Bytes>,     // what handleFrame was called with
    rxPackets: nat,
    rxBytes: nat,
    queue: seq<nat>,         // framesToInject
    injected: seq<nat>,      // taken out by injectLoop
    dropped: nat
  )

  const RX_START := Rx([], 0, 0, [], [], 0)

  datatype RxStep =
    | Handle(frame: Bytes)
    | Inject

  function RxDo(r: Rx, a: RxStep): Rx {
    match a
    case Handle(f) =>
      var r' := r.(handled := r.handled + [f], rxPackets := r.rxPackets + 1, rxBytes := r.rxBytes + |f|);
      if |r.queue| < CAPACITY then r'.(queue := r.queue + [r.rxPackets]) else r'.(dropped := r.dropped + 1)
    case Inject =>
      if r.queue != [] then r.(injected := r.injected + [r.queue[0]], queue := r.queue[1..]) else r
  }

  function RxRun(steps: seq<RxStep>): Rx {
    if steps == [] then RX_START else RxDo(RxRun(steps[..|steps| - 1]), steps[|steps| - 1])
  }

  function Lengths(frames: seq<Bytes>): nat {
    if frames == [] then 0 else Lengths(frames[..|frames| - 1]) + |frames[|frames| - 1]|
  }

  /** The frames taken out by injectLoop, then those still queued. */
  function InjectLine(r: Rx): seq<nat> {
    r.injected + r.queue
  }

  lemma InjectLineMoves(r: Rx, a: RxStep)
    ensures
      var r' := RxDo(r, a);
      || (InjectLine(r') == InjectLine(r) && r'.rxPackets >= r.rxPackets)
      || (InjectLine(r') == InjectLine(r) + [r.rxPackets] && r'.rxPackets == r.rxPackets + 1)
  {
  }

  lemma RxCountsStep(r: Rx, a: RxStep)
    requires r.rxPackets == |r.handled| == |r.injected| + |r.queue| + r.dropped
    requires r.rxBytes == Lengths(r.handled) && |r.queue| <= CAPACITY
    ensures
      var r' := RxDo(r, a);
      && r'.rxPackets == |r'.handled| == |r'.injected| + |r'.queue| + r'.dropped
      && r'.rxBytes == Lengths(r'.handled) && |r'.queue| <= CAPACITY
  {
  }

  /**
   In every run frames are injected in the order they were handled, without repetition,
   and RxPackets = injected + queued + dropped, RxBytes the length of what was handled.
   */
  lemma {:induction false} InjectionOrder(steps: seq<RxStep>)
    ensures
      var r := RxRun(steps);
      && Increasing(InjectLine(r)) && Below(InjectLine(r), r.rxPackets)
      && |r.queue| <= CAPACITY
      && r.rxPackets == |r.handled| == |r.injected| + |r.queue| + r.dropped
      && r.rxBytes == Lengths(r.handled)
  {
    if steps != [] {
      var init, a := steps[..|steps| - 1], steps[|steps| - 1];
      InjectionOrder(init);
      RxCountsStep(RxRun(init), a);
      InjectLineMoves(RxRun(init), a);
      AppendAbove(InjectLine(RxRun(init)), RxRun(init).rxPackets);
    }
  }

  lemma RxNext(steps: seq<RxStep>, a: RxStep)
    ensures RxRun(steps + [a]) == RxDo(RxRun(steps), a)
  {
  }

  /** The frames in the channel. */
  function Waiting(r: Rx): seq<Bytes>
    requires Below(r.queue, |r.handled|)
  {
    Select(r.handled, r.queue)
  }

  lemma WaitingStep(r: Rx, a: RxStep)
    requires Below(r.queue, |r.handled|) && r.rxPackets == |r.handled|
    ensures
      var r' := RxDo(r, a);
      && Below(r'.queue, |r'.handled|) && r'.rxPackets == |r'.handled|
      && match a
         case Handle(f) => Waiting(r') == Waiting(r) + if |r.queue| < CAPACITY then [f] else []
         case Inject => Waiting(r') == if r.queue == [] then [] else Waiting(r)[1..]
  {
    if a.Handle? {
      SelectGrows(r.handled, a.frame, r.queue);
    }
  }
}
