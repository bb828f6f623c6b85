/** What every run of the two processes keeps about datagrams, nonces and frames. */
module LinkFrames {
  import opened ByteOrder
  import opened Protocol
  import opened Sequences
  import opened Wrappers
  import opened Transport
  import opened Link
  import Pipeline

  // ------------------------------------------------------------ the send log

  /** A step adds at most one message to the log, and never takes one away. */
  predicate Grows(log: Log, log': Log) {
    && log.wire <= log'.wire
    && log.issued <= log'.issued
    && |log'.issued| <= |log.issued| + 1
  }

  /** Only messages an encoder can produce are in the log, and the counter has not wrapped. */
  ghost predicate AllValid(log: Log) {
    |log.issued| < TWO_64 && forall i | 0 <= i < |log.issued| :: log.issued[i].m.Valid()
  }

  lemma StepGrows(c: Config, me: Peer, other: Log, a: Step)
    ensures Grows(me.log, Do(c, me, other, a).log)
  {
  }

  lemma StepSaysValid(c: Config, me: Peer, other: Log, a: Step)
    requires AllValid(me.log)
    ensures AllValid(Do(c, me, other, a).log)
  {
  }

  // ---------------------------------------------------------------- delivery

  /**
   What a delivery decodes to. The other process's datagram number i is accepted exactly
   when it is a handshake message or i is not below the receive nonce; anything refused
   leaves the receive nonce as it was.
   */
  lemma Arrival(c: Config, from: Log, recvNonce: U64, p: Packet)
    requires c.auth.Secure() && AllValid(from) && Deliverable(c, from, p)
    ensures
      var (r, nonce) := Unseal(c.auth, recvNonce, Contents(c, from, p));
      if p.Genuine? && (from.issued[p.i].m.Handshake() || recvNonce <= p.i) then
        && r == Ok(from.issued[p.i].m)
        && nonce == if from.issued[p.i].m.Handshake() then recvNonce else p.i + 1
      else
        r.Err? && nonce == recvNonce
  {
    match p
    case Genuine(i) => RoundTrip(c.auth, recvNonce, i + 1, from.issued[i].m);
    case Forged(data) => ForgeryRefused(c.auth, recvNonce, data);
  }

  /** The frames dispatched in this session, as positions in the sender's log. */
  ghost predicate Reception(rx: Rx, inSession: bool, from: Log) {
    && rx.recvNonce <= |from.issued|
    && |rx.got| == |rx.handled|
    && Increasing(rx.got)
    && Below(rx.got, rx.recvNonce)
    && (forall k | 0 <= k < |rx.got| :: rx.got[k] < |from.issued| && from.issued[rx.got[k]].m == Frame(rx.handled[k]))
    && (rx.inbox.Some? ==> InboxOk(rx, rx.inbox.value, from))
    && (!inSession ==> rx.inbox.None? && rx.got == [])
  }

  /** The undispatched message is the sender's; a frame is newer than those dispatched. */
  ghost predicate InboxOk(rx: Rx, b: Inbox, from: Log) {
    && b.from < |from.issued|
    && from.issued[b.from].m == b.m
    && (b.m.Frame? ==> b.from < rx.recvNonce && Below(rx.got, b.from))
  }

  ghost predicate Receives(me: Peer, from: Log) {
    Reception(me.rx, me.shake.phase.InSession?, from)
  }

  lemma ReceptionGrows(me: Peer, from: Log, from': Log)
    requires Receives(me, from) && Grows(from, from')
    ensures Receives(me, from')
  {
  }

  lemma DeliverKeeps(c: Config, me: Peer, from: Log, p: Packet, src: Addr)
    requires c.auth.Secure() && AllValid(from) && Receives(me, from)
    ensures Receives(DoDeliver(c, me, from, p, src), from)
  {
    hide Unseal, Seal;
    if Deliverable(c, from, p) {
      Arrival(c, from, me.rx.recvNonce, p);
    }
  }

  lemma DispatchKeeps(me: Peer, from: Log, now: int)
    requires Receives(me, from)
    ensures Receives(DoDispatch(me, now), from)
  {
  }

  lemma ReceptionStep(c: Config, me: Peer, from: Log, a: Step)
    requires c.auth.Secure() && AllValid(from) && Receives(me, from)
    ensures Receives(Do(c, me, from, a), from)
  {
    match a
    case Deliver(p, src) => DeliverKeeps(c, me, from, p, src);
    case Dispatch(now) => DispatchKeeps(me, from, now);
    case _ =>
  }

  // ----------------------------------------------------------------- origins

  /** The frames of this bridge that may still be given a nonce. */
  function Pending(t: Pipeline.Tx): seq<nat> {
    (if t.hand.Taken? then [t.hand.frame] else []) + t.queue
  }

  /** Encoded frames are captured frames, in capture order, ahead of those still pending. */
  ghost predicate Origins(me: Peer) {
    && Pipeline.TxLines(me.tx.pipe)
    && (forall i | 0 <= i < |me.log.issued| && me.log.issued[i].m.Frame? :: OriginOk(me, me.log.issued[i]))
    && (forall i, j | 0 <= i < j < |me.log.issued| && me.log.issued[i].m.Frame? && me.log.issued[j].m.Frame? ::
          me.log.issued[i].origin < me.log.issued[j].origin)
  }

  ghost predicate OriginOk(me: Peer, e: Issue)
    requires e.m.Frame?
  {
    && e.origin < |Captured(me)|
    && Captured(me)[e.origin] == e.m.frame
    && (forall k | 0 <= k < |Pending(me.tx.pipe)| :: e.origin < |me.tx.past| + Pending(me.tx.pipe)[k])
  }

  /** A frame encoded earlier stays ahead when the pipe moves without encoding. */
  lemma OriginMoves(me: Peer, step: Pipeline.TxStep, e: Issue)
    requires e.m.Frame? && OriginOk(me, e)
    ensures OriginOk(me.(tx := me.tx.(pipe := Pipeline.TxDo(me.tx.pipe, step))), e)
  {
    var t, t' := me.tx.pipe, Pipeline.TxDo(me.tx.pipe, step);
    assert me.tx.past + t.captured <= me.tx.past + t'.captured;
    assert forall k | 0 <= k < |Pending(t')| :: Pending(t')[k] == |t.captured| || Pending(t')[k] in Pending(t);
  }

  /** Messages other than frames do not disturb the order. */
  lemma OriginsSay(me: Peer, me': Peer)
    requires Origins(me) && me'.tx == me.tx && Grows(me.log, me'.log)
    requires |me'.log.issued| > |me.log.issued| ==> !me'.log.issued[|me.log.issued|].m.Frame?
    ensures Origins(me')
  {
  }

  lemma OriginsPipe(me: Peer, step: Pipeline.TxStep)
    requires Origins(me)
    ensures Origins(me.(tx := me.tx.(pipe := Pipeline.TxDo(me.tx.pipe, step))))
  {
    Pipeline.TxLinesStep(me.tx.pipe, step);
    forall i | 0 <= i < |me.log.issued| && me.log.issued[i].m.Frame?
      ensures OriginOk(me.(tx := me.tx.(pipe := Pipeline.TxDo(me.tx.pipe, step))), me.log.issued[i])
    {
      OriginMoves(me, step, me.log.issued[i]);
    }
  }

  /** The frame being encoded is behind those encoded and ahead of those pending. */
  lemma OriginsEncode(me: Peer, me': Peer)
    requires Origins(me.(tx := me'.tx)) && Origins(me)
    requires me.tx.pipe.hand.Taken? && me.tx.pipe.hand.frame < |me.tx.pipe.captured|
    requires me'.tx.past == me.tx.past && me'.tx.pipe.captured == me.tx.pipe.captured
    requires me'.tx.pipe.hand.Coded? && me'.tx.pipe.queue == me.tx.pipe.queue
    requires me'.log.issued ==
             me.log.issued + [Issue(Frame(me.tx.pipe.captured[me.tx.pipe.hand.frame]),
                                    |me.tx.past| + me.tx.pipe.hand.frame)]
    ensures Origins(me')
  {
    var t, n := me.tx.pipe, |me.log.issued|;
    var o := t.hand.frame;
    assert Pending(t)[0] == o;
    assert OriginOk(me', me'.log.issued[n]) by {
      var line := Pipeline.EncodedLine(t);
      assert line[|t.encoded|] == o;
      assert forall k | 0 <= k < |t.queue| :: line[|t.encoded| + 1 + k] == t.queue[k];
      assert Pending(me'.tx.pipe) == t.queue;
    }
    forall i | 0 <= i < n && me'.log.issued[i].m.Frame?
      ensures OriginOk(me', me'.log.issued[i]) && me'.log.issued[i].origin < |me.tx.past| + o
    {
      assert me'.log.issued[i] == me.log.issued[i];
      assert OriginOk(me.(tx := me'.tx), me.log.issued[i]);
      assert OriginOk(me, me.log.issued[i]);
    }
  }

  lemma OriginsDoPipe(me: Peer, step: Pipeline.TxStep)
    requires Origins(me)
    ensures Origins(DoPipe(me, step))
  {
    var me' := DoPipe(me, step);
    var moved := me.(tx := me.tx.(pipe := Pipeline.TxDo(me.tx.pipe, step)));
    OriginsPipe(me, step);
    if me'.log.issued != me.log.issued {
      assert Origins(me.(tx := me'.tx)) by { OriginsCoded(moved, me.(tx := me'.tx)); }
      OriginsEncode(me, me');
    } else if me.shake.phase.InSession? {
      OriginsCoded(moved, me');
    }
  }

  /** `codedAs` and the wire play no part. */
  lemma OriginsCoded(p: Peer, q: Peer)
    requires Origins(p) && q.log.issued == p.log.issued
    requires q.tx.past == p.tx.past && q.tx.pipe == p.tx.pipe
    ensures Origins(q)
  {
  }

  lemma OriginsRenew(me: Peer, phase: Phase)
    requires Origins(me)
    ensures Origins(Renew(me, phase))
  {
  }

  lemma OriginsStep(c: Config, me: Peer, other: Log, a: Step)
    requires Origins(me)
    ensures Origins(Do(c, me, other, a))
  {
    StepGrows(c, me, other, a);
    match a
    case Pipe(step) => OriginsDoPipe(me, step);
    case EndSession => OriginsRenew(me, if me.role.Listener? then Waiting else Resting);
    case _ => OriginsSay(me, Do(c, me, other, a));
  }

  // -------------------------------------------------------------------- runs

  ghost predicate LinkInv(s: System) {
    && AllValid(s.listener.log) && AllValid(s.dialer.log)
    && Origins(s.listener) && Origins(s.dialer)
    && Receives(s.listener, s.dialer.log) && Receives(s.dialer, s.listener.log)
  }

  /** One step of one process, seen from both. */
  lemma PairStep(c: Config, me: Peer, other: Peer, a: Step)
    requires c.auth.Secure() && AllValid(me.log) && AllValid(other.log)
    requires Origins(me) && Receives(me, other.log) && Receives(other, me.log)
    ensures
      var me' := Do(c, me, other.log, a);
      AllValid(me'.log) && Origins(me') && Receives(me', other.log) && Receives(other, me'.log)
  {
    StepGrows(c, me, other.log, a);
    StepSaysValid(c, me, other.log, a);
    OriginsStep(c, me, other.log, a);
    ReceptionStep(c, me, other.log, a);
    ReceptionGrows(other, me.log, Do(c, me, other.log, a).log);
  }

  lemma {:induction false} RunKeeps(c: Config, turns: seq<Turn>)
    requires c.auth.Secure()
    ensures LinkInv(Run(c, turns))
  {
    if turns != [] {
      var s, t := Run(c, turns[..|turns| - 1]), turns[|turns| - 1];
      RunKeeps(c, turns[..|turns| - 1]);
      if t.who.Listener? {
        PairStep(c, s.listener, s.dialer, t.a);
      } else {
        PairStep(c, s.dialer, s.listener, t.a);
      }
    }
  }

  // ---------------------------------------------------------------- theorems

  /**
   In every run, the frames a process passed to handleFrame in its current session are
   an order-keeping, duplicate-free selection of the frames the other process captured.
   */
  lemma FramesArriveInOrder(c: Config, turns: seq<Turn>, who: Role)
    requires c.auth.Secure()
    ensures
      var s := Run(c, turns);
      Subsequence(Me(s, who).rx.handled, Captured(Other(s, who)))
  {
    RunKeeps(c, turns);
    var s := Run(c, turns);
    var rx, other := Me(s, who).rx, Other(s, who);
    var at := seq(|rx.got|, k requires 0 <= k < |rx.got| => other.log.issued[rx.got[k]].origin);
    forall k | 0 <= k < |at| ensures at[k] < |Captured(other)| && rx.handled[k] == Captured(other)[at[k]] {
      assert OriginOk(other, other.log.issued[rx.got[k]]);
    }
    assert Picks(rx.handled, Captured(other), at);
  }

  /**
   No false replay: the receive nonce never runs ahead of the peer's counter, and in a
   session a written datagram from the peer's address is taken in exactly when it is a
   handshake message or at least as new as the receive nonce.
   */
  lemma NonceNeverAhead(c: Config, turns: seq<Turn>, who: Role, i: nat, src: Addr)
    requires c.auth.Secure()
    ensures
      var s := Run(c, turns);
      var me, other := Me(s, who), Other(s, who).log;
      && me.rx.recvNonce <= |other.issued|
      && (me.shake.phase.InSession? && src == me.shake.phase.peer && me.rx.inbox.None?
          && |me.log.issued| + 1 < TWO_64 && i in other.wire && i < |other.issued| ==>
            var me' := Do(c, me, other, Deliver(Genuine(i), src));
            if other.issued[i].m.Handshake() || me.rx.recvNonce <= i
            then me'.rx.inbox == Some(Inbox(i, other.issued[i].m))
            else me' == me)
  {
    hide Unseal, Seal;
    RunKeeps(c, turns);
    var s := Run(c, turns);
    var me, other := Me(s, who), Other(s, who).log;
    if i in other.wire && i < |other.issued| {
      Arrival(c, other, me.rx.recvNonce, Genuine(i));
    }
  }
}
