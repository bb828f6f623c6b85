/**
 recvLoop reads every datagram into one buffer (internal/bridge/bridge.go), Decode returns
 slices of it (internal/protocol/protocol.go), and handleFrame queues such a slice for
 injectLoop. The bytes that are injected are therefore those in the buffer at that time.
 */
module RecvBuffer {
  import opened ByteOrder
  import opened Protocol
  import opened Sequences
  import opened Wrappers
  import Pipeline

  /** A read overwrites the front of the buffer and leaves the rest. */
  function Overwrite(buf: Bytes, d: Bytes): (r: Bytes)
    requires |d| <= |buf|
    ensures |r| == |buf|
  {
    d + buf[|d|..]
  }

  /** The buffer after a list of reads. */
  function After(buf: Bytes, ds: seq<Bytes>): (r: Bytes)
    requires forall k | 0 <= k < |ds| :: |ds[k]| <= |buf|
    ensures |r| == |buf|
  {
    if ds == [] then buf else Overwrite(After(buf, ds[..|ds| - 1]), ds[|ds| - 1])
  }

  /** Read `k` is the last of the list that reaches position `p`. */
  predicate LastToReach(ds: seq<Bytes>, k: nat, p: nat)
    requires k < |ds|
  {
    p < |ds[k]| && forall j | k < j < |ds| :: |ds[j]| <= p
  }

  /** Position `p` still holds `b`: no later read reaches it, or the last that does has `b` there. */
  predicate Keeps(ds: seq<Bytes>, p: nat, b: Byte) {
    forall k | 0 <= k < |ds| && LastToReach(ds, k, p) :: ds[k][p] == b
  }

  lemma {:induction false} ByteAfter(buf: Bytes, ds: seq<Bytes>, p: nat)
    requires forall k | 0 <= k < |ds| :: |ds[k]| <= |buf|
    requires p < |buf|
    ensures After(buf, ds)[p] == buf[p] <==> Keeps(ds, p, buf[p])
  {
    if ds != [] {
      var n := |ds| - 1;
      var init := ds[..n];
      ByteAfter(buf, init, p);
      if p < |ds[n]| {
        assert LastToReach(ds, n, p);
        assert forall k | 0 <= k < n :: !LastToReach(ds, k, p);
      } else {
        assert forall k | 0 <= k < n :: LastToReach(ds, k, p) <==> LastToReach(init, k, p);
      }
    }
  }

  /** Where the payload of a datagram lies. */
  function PayloadStart(a: Auth): nat {
    if a.Secure() then SECURE_HEADER_SIZE else 1
  }

  lemma PayloadSlice(a: Auth, nonce: U64, f: Bytes)
    ensures
      var d := Seal(a, nonce, Frame(f));
      PayloadStart(a) + |f| <= |d| && d[PayloadStart(a)..PayloadStart(a) + |f|] == f
  {
  }

  /** A slice of the buffer, later. */
  lemma SliceAfter(buf: Bytes, later: seq<Bytes>, lo: nat, f: Bytes)
    requires lo + |f| <= |buf| && buf[lo..lo + |f|] == f
    requires forall k | 0 <= k < |later| :: |later[k]| <= |buf|
    ensures After(buf, later)[lo..lo + |f|] == f <==> forall p | 0 <= p < |f| :: Keeps(later, lo + p, f[p])
  {
    hide Keeps, After;
    forall p | 0 <= p < |f| ensures After(buf, later)[lo..lo + |f|][p] == f[p] <==> Keeps(later, lo + p, f[p]) {
      assert f[p] == buf[lo..lo + |f|][p] == buf[lo + p];
      ByteAfter(buf, later, lo + p);
    }
  }

  /**
   A queued frame is injected with the bytes it had when it was handled if and only if, at
   each of its positions, the last datagram read in between that reaches the position (if
   any does) carries the same byte there.
   */
  lemma InjectedIntact(a: Auth, nonce: U64, f: Bytes, buf: Bytes, later: seq<Bytes>)
    requires |Seal(a, nonce, Frame(f))| <= |buf|
    requires forall k | 0 <= k < |later| :: |later[k]| <= |buf|
    ensures
      var lo := PayloadStart(a);
      var now := Overwrite(buf, Seal(a, nonce, Frame(f)));
      && lo + |f| <= |buf|
      && (After(now, later)[lo..lo + |f|] == f <==> forall p | 0 <= p < |f| :: Keeps(later, lo + p, f[p]))
  {
    hide Seal, Keeps, After;
    var lo, d := PayloadStart(a), Seal(a, nonce, Frame(f));
    PayloadSlice(a, nonce, f);
    assert Overwrite(buf, d)[lo..lo + |f|] == d[lo..lo + |f|];
    SliceAfter(Overwrite(buf, d), later, lo, f);
  }

  // ------------------------------------------------- recvLoop and injectLoop

  /** A queued slice: the read it came from, and the frame that handleFrame was given. */
  datatype Slot = Slot(at: nat, frame: Bytes)

  /** What injectLoop wrote for a slot, when so many datagrams had been read. */
  datatype Injection = Injection(slot: Slot, count: nat, bytes: Bytes)

  datatype Loops = Loops(
    buf: Bytes,
    recvNonce: U64,
    log: seq<Bytes>,                     // every datagram read
    pending: Option<Slot>,               // decoded by recvLoop, not yet on the channel
    queue: seq<Slot>,                    // framesToInject
    hand: Option<Slot>,                  // taken by injectLoop, not yet written
    injected: seq<Injection>
  )

  datatype Step =
    | Read(d: Bytes, fromPeer: bool)     // recvLoop: a datagram arrives and is decoded
    | Queue                              // handleFrame: the send on the channel
    | Take                               // injectLoop: the receive from the channel
    | Write                              // injectLoop: WritePacket

  function DoRead(a: Auth, s: Loops, d: Bytes, fromPeer: bool): Loops {
    if |d| > |s.buf| || s.pending.Some? then s
    else
      var s' := s.(buf := Overwrite(s.buf, d), log := s.log + [d]);
      var (r, nonce) := Unseal(a, s.recvNonce, d);
      if !fromPeer then s'
      else if r.Ok? && r.value.Frame? then
        s'.(recvNonce := nonce, pending := Some(Slot(|s.log|, r.value.frame)))
      else s'.(recvNonce := nonce)
  }

  function DoWrite(a: Auth, s: Loops): Loops {
    if s.hand.None? then s
    else
      var lo, slot := PayloadStart(a), s.hand.value;
      var bytes := if lo + |slot.frame| <= |s.buf| then s.buf[lo..lo + |slot.frame|] else [];
      s.(hand := None, injected := s.injected + [Injection(slot, |s.log|, bytes)])
  }

  function Do(a: Auth, s: Loops, step: Step): Loops {
    match step
    case Read(d, fromPeer) => DoRead(a, s, d, fromPeer)
    case Queue =>
      if s.pending.Some? && |s.queue| < Pipeline.CAPACITY then s.(pending := None, queue := s.queue + [s.pending.value])
      else s.(pending := None)
    case Take =>
      if s.hand.None? && s.queue != [] then s.(hand := Some(s.queue[0]), queue := s.queue[1..]) else s
    case Write => DoWrite(a, s)
  }

  /** A run over a buffer that holds anything at first. */
  function Run(a: Auth, buf: Bytes, r: U64, steps: seq<Step>): Loops {
    if steps == [] then Loops(buf, r, [], None, [], None, [])
    else Do(a, Run(a, buf, r, steps[..|steps| - 1]), steps[|steps| - 1])
  }

  /** The frame is a slice of the datagram it came in. */
  predicate SlotOk(a: Auth, log: seq<Bytes>, slot: Slot) {
    var lo := PayloadStart(a);
    && slot.at < |log|
    && lo + |slot.frame| <= |log[slot.at]|
    && log[slot.at][lo..lo + |slot.frame|] == slot.frame
  }

  predicate Fits(buf: Bytes, log: seq<Bytes>) {
    forall k | 0 <= k < |log| :: |log[k]| <= |buf|
  }

  /** What was written is the slice of the buffer as it was then. */
  predicate InjectionOk(a: Auth, buf: Bytes, log: seq<Bytes>, e: Injection)
    requires Fits(buf, log)
  {
    var lo := PayloadStart(a);
    && SlotOk(a, log, e.slot)
    && e.slot.at < e.count <= |log|
    && e.bytes == After(buf, log[..e.count])[lo..lo + |e.slot.frame|]
  }

  function Opt(o: Option<Slot>): seq<Slot> {
    if o.Some? then [o.value] else []
  }

  /** The slots not injected yet, oldest first. */
  function Slots(s: Loops): seq<Slot> {
    Opt(s.hand) + s.queue + Opt(s.pending)
  }

  /** The reads of the injected slots, then of the others. */
  function Line(s: Loops): seq<nat> {
    seq(|s.injected|, i requires 0 <= i < |s.injected| => s.injected[i].slot.at) +
    seq(|Slots(s)|, i requires 0 <= i < |Slots(s)| => Slots(s)[i].at)
  }

  ghost predicate Inv(a: Auth, buf: Bytes, s: Loops) {
    && Fits(buf, s.log) && s.buf == After(buf, s.log) && |s.queue| <= Pipeline.CAPACITY
    && (forall i | 0 <= i < |Slots(s)| :: SlotOk(a, s.log, Slots(s)[i]))
    && (forall i | 0 <= i < |s.injected| :: InjectionOk(a, buf, s.log, s.injected[i]))
    && Increasing(Line(s)) && Below(Line(s), |s.log|)
  }

  lemma DecodedFrame(a: Auth, r: U64, d: Bytes)
    ensures
      var m := Unseal(a, r, d).0;
      m.Ok? && m.value.Frame? ==>
        var lo, f := PayloadStart(a), m.value.frame;
        lo + |f| <= |d| && d[lo..lo + |f|] == f
  {
  }

  lemma LogGrows(a: Auth, buf: Bytes, log: seq<Bytes>, d: Bytes, e: Injection)
    requires Fits(buf, log) && |d| <= |buf| && InjectionOk(a, buf, log, e)
    ensures Fits(buf, log + [d]) && InjectionOk(a, buf, log + [d], e)
  {
    assert (log + [d])[..e.count] == log[..e.count];
  }

  lemma ReadKeeps(a: Auth, buf: Bytes, s: Loops, d: Bytes, fromPeer: bool)
    requires Inv(a, buf, s)
    ensures Inv(a, buf, DoRead(a, s, d, fromPeer))
  {
    hide Unseal, After, InjectionOk;
    var s' := DoRead(a, s, d, fromPeer);
    if s' != s {
      DecodedFrame(a, s.recvNonce, d);
      assert s'.buf == After(buf, s'.log) by { AfterNext(buf, s.log, d); }
      forall i | 0 <= i < |s.injected| ensures InjectionOk(a, buf, s'.log, s.injected[i]) {
        LogGrows(a, buf, s.log, d, s.injected[i]);
      }
      assert Slots(s') == Slots(s) + Opt(s'.pending);
      forall i | 0 <= i < |Slots(s')| ensures SlotOk(a, s'.log, Slots(s')[i]) {
        assert i < |Slots(s)| ==> SlotOk(a, s.log, Slots(s)[i]) && Slots(s')[i] == Slots(s)[i];
      }
      AppendAbove(Line(s), |s.log|);
      assert Line(s') == Line(s) + if s'.pending.Some? then [|s.log|] else [];
    }
  }

  /** Moving a slot along, or dropping the newest one. */
  lemma SlotsMove(a: Auth, s: Loops, step: Step)
    requires step.Queue? || step.Take?
    ensures Slots(Do(a, s, step)) <= Slots(s)
  {
  }

  lemma LineShortens(s: Loops, s': Loops)
    requires s'.injected == s.injected && Slots(s') <= Slots(s)
    ensures Line(s') <= Line(s)
  {
  }

  lemma QueueKeeps(a: Auth, buf: Bytes, s: Loops, step: Step)
    requires Inv(a, buf, s) && (step.Queue? || step.Take?)
    ensures Inv(a, buf, Do(a, s, step))
  {
    hide After, InjectionOk, SlotOk, Slots, Line;
    SlotsMove(a, s, step);
    LineShortens(s, Do(a, s, step));
  }

  lemma AfterNext(buf: Bytes, log: seq<Bytes>, d: Bytes)
    requires Fits(buf, log) && |d| <= |buf|
    ensures Fits(buf, log + [d]) && After(buf, log + [d]) == Overwrite(After(buf, log), d)
  {
  }

  lemma WriteKeeps(a: Auth, buf: Bytes, s: Loops)
    requires Inv(a, buf, s)
    ensures Inv(a, buf, DoWrite(a, s))
  {
    hide After;
    if s.hand.Some? {
      assert Slots(s)[0] == s.hand.value && Slots(DoWrite(a, s)) == Slots(s)[1..];
      assert s.log[..|s.log|] == s.log;
      assert Line(DoWrite(a, s)) == Line(s);
    }
  }

  lemma {:induction false} RunKeeps(a: Auth, buf: Bytes, r: U64, steps: seq<Step>)
    ensures Inv(a, buf, Run(a, buf, r, steps))
  {
    if steps != [] {
      var s, step := Run(a, buf, r, steps[..|steps| - 1]), steps[|steps| - 1];
      RunKeeps(a, buf, r, steps[..|steps| - 1]);
      match step
      case Read(d, fromPeer) => ReadKeeps(a, buf, s, d, fromPeer);
      case Write => WriteKeeps(a, buf, s);
      case _ => QueueKeeps(a, buf, s, step);
    }
  }

  lemma {:induction false} AfterSplit(buf: Bytes, log: seq<Bytes>, i: nat, j: nat)
    requires Fits(buf, log) && i <= j <= |log|
    ensures After(buf, log[..j]) == After(After(buf, log[..i]), log[i..j])
    decreases j
  {
    if i < j {
      AfterSplit(buf, log, i, j - 1);
      assert log[..j][..j - 1] == log[..j - 1] && log[i..j][..j - 1 - i] == log[i..j - 1];
    }
  }

  /** No read between handling and injection has changed the slot's bytes. */
  predicate Survives(a: Auth, log: seq<Bytes>, e: Injection)
    requires e.slot.at < e.count <= |log|
  {
    forall p | 0 <= p < |e.slot.frame| :: Keeps(log[e.slot.at + 1..e.count], PayloadStart(a) + p, e.slot.frame[p])
  }

  /**
   In every run of the two loops, slots are injected in the order of the datagrams they came
   from, and an injected frame is the one handled if and only if, at each of its positions,
   the last datagram read in between that reaches the position carries the same byte.
   */
  lemma InjectedExactly(a: Auth, buf: Bytes, r: U64, steps: seq<Step>, i: nat)
    ensures
      var s := Run(a, buf, r, steps);
      i < |s.injected| ==>
        var e := s.injected[i];
        && SlotOk(a, s.log, e.slot) && e.slot.at < e.count <= |s.log|
        && (e.bytes == e.slot.frame <==> Survives(a, s.log, e))
        && forall j | 0 <= j < i :: s.injected[j].slot.at < e.slot.at
  {
    RunKeeps(a, buf, r, steps);
    var s := Run(a, buf, r, steps);
    if i < |s.injected| {
      assert InjectionOk(a, buf, s.log, s.injected[i]);
      InjectionDecided(a, buf, s.log, s.injected[i]);
      assert forall j | 0 <= j <= i :: Line(s)[j] == s.injected[j].slot.at;
    }
  }

  lemma InjectionDecided(a: Auth, buf: Bytes, log: seq<Bytes>, e: Injection)
    requires Fits(buf, log) && InjectionOk(a, buf, log, e)
    ensures e.bytes == e.slot.frame <==> Survives(a, log, e)
  {
    hide Keeps;
    var lo, f, i := PayloadStart(a), e.slot.frame, e.slot.at;
    var written := After(buf, log[..i + 1]);
    assert log[..i + 1] == log[..i] + [log[i]];
    AfterNext(buf, log[..i], log[i]);
    assert written[lo..lo + |f|] == log[i][lo..lo + |f|];
    AfterSplit(buf, log, i + 1, e.count);
    SliceAfter(written, log[i + 1..e.count], lo, f);
  }

  lemma RunNext(a: Auth, buf: Bytes, r: U64, steps: seq<Step>, step: Step)
    ensures Run(a, buf, r, steps + [step]) == Do(a, Run(a, buf, r, steps), step)
  {
  }

  /** A datagram from another source is not decoded, but it does overwrite the buffer. */
  lemma StrangerRead(a: Auth, buf: Bytes, r: U64, steps: seq<Step>, d: Bytes)
    ensures
      var s, s' := Run(a, buf, r, steps), Run(a, buf, r, steps + [Read(d, false)]);
      && s'.recvNonce == s.recvNonce && Slots(s') == Slots(s) && s'.injected == s.injected
      && (s.pending.None? && |d| <= |s.buf| ==> d <= s'.buf && s'.log == s.log + [d])
  {
    RunNext(a, buf, r, steps, Read(d, false));
  }

  /** recvLoop takes in a frame. */
  lemma FrameRead(a: Auth, s: Loops, nonce: U64, f: Bytes)
    requires Frame(f).Valid() && s.recvNonce < nonce && |Seal(a, nonce, Frame(f))| <= |s.buf| && s.pending.None?
    requires |s.queue| < Pipeline.CAPACITY
    ensures
      var d, lo := Seal(a, nonce, Frame(f)), PayloadStart(a);
      var s' := Do(a, Do(a, s, Read(d, true)), Queue);
      && s' == s.(buf := s'.buf, recvNonce := s'.recvNonce, log := s.log + [d], queue := s.queue + [Slot(|s.log|, f)])
      && |s'.buf| == |s.buf| && lo + |f| <= |s.buf| && s'.buf[lo..lo + |f|] == f && s'.recvNonce <= nonce
  {
    hide Seal, Unseal;
    RoundTrip(a, s.recvNonce, nonce, Frame(f));
    PayloadSlice(a, nonce, f);
    var d, lo := Seal(a, nonce, Frame(f)), PayloadStart(a);
    assert Overwrite(s.buf, d)[lo..lo + |f|] == d[lo..lo + |f|];
  }

  /**
   It does go wrong: two different frames of one size are read before the first is injected,
   and what is injected for the first is the second.
   */
  lemma SecondFrameOverwrites(a: Auth, buf: Bytes, r: U64, n1: U64, n2: U64, f: Bytes, g: Bytes)
    requires Frame(f).Valid() && Frame(g).Valid() && |f| == |g| && f != g && r < n1 < n2
    requires |Seal(a, n1, Frame(f))| <= |buf|
    ensures
      var steps := [Read(Seal(a, n1, Frame(f)), true), Queue, Read(Seal(a, n2, Frame(g)), true), Queue, Take, Write];
      var s := Run(a, buf, r, steps);
      |s.injected| == 1 && s.injected[0].slot == Slot(0, f) && s.injected[0].bytes == g != f
  {
    hide Do;
    SameSize(a, n1, n2, f, g);
    var r1, r2 := Read(Seal(a, n1, Frame(f)), true), Read(Seal(a, n2, Frame(g)), true);
    var all := [r1, Queue, r2, Queue, Take, Write];
    RunNext(a, buf, r, [], r1);
    RunNext(a, buf, r, [] + [r1], Queue);
    FrameRead(a, Run(a, buf, r, []), n1, f);
    RunNext(a, buf, r, [] + [r1] + [Queue], r2);
    RunNext(a, buf, r, [] + [r1] + [Queue] + [r2], Queue);
    FrameRead(a, Run(a, buf, r, [] + [r1] + [Queue]), n2, g);
    RunNext(a, buf, r, [] + [r1] + [Queue] + [r2] + [Queue], Take);
    RunNext(a, buf, r, [] + [r1] + [Queue] + [r2] + [Queue] + [Take], Write);
    assert all == [] + [r1] + [Queue] + [r2] + [Queue] + [Take] + [Write];
    FirstInjected(a, Run(a, buf, r, [] + [r1] + [Queue] + [r2] + [Queue]));
  }

  lemma SameSize(a: Auth, n1: U64, n2: U64, f: Bytes, g: Bytes)
    requires |f| == |g|
    ensures |Seal(a, n1, Frame(f))| == |Seal(a, n2, Frame(g))|
  {
  }

  lemma FirstInjected(a: Auth, s: Loops)
    requires s.hand.None? && s.queue != [] && PayloadStart(a) + |s.queue[0].frame| <= |s.buf|
    ensures
      var lo, slot := PayloadStart(a), s.queue[0];
      Do(a, Do(a, s, Take), Write).injected ==
      s.injected + [Injection(slot, |s.log|, s.buf[lo..lo + |slot.frame|])]
  {
  }

  /** The buffer itself. */
  class Buffer {
    const buf: array<Byte>

    constructor (size: nat)
      ensures buf.Length == size && fresh(buf)
    {
      buf := new Byte[size](_ => 0);
    }

    method Recv(d: Bytes)
      requires |d| <= buf.Length
      modifies buf
      ensures buf[..] == Overwrite(old(buf[..]), d)
    {
      CopyInto(buf, 0, d);
      assert buf[..] == buf[0..0 + |d|] + buf[|d|..];
    }
  }
}
