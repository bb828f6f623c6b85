/**
 The liveness detector of the bridge (internal/bridge/bridge.go, `sendPing` and
 `handlePong`): the two fields guarded by `pingMu`, and what a whole history of calls
 makes of them. The calls come from two goroutines in any order; each is one locked
 section, so a history is any sequence of them.
 */
module PingMonitor {
  import opened Sequences
  import opened Wrappers

  const MAX_MISSED_PONGS := 3

  /** `pendingPing` (0 when none is outstanding) and `missedPongs`. */
  datatype Monitor = Monitor(pending: int, missed: nat) {
    predicate Live() {
      missed < MAX_MISSED_PONGS && (pending == 0 ==> missed == 0)
    }
  }

  const IDLE := Monitor(0, 0)

  /** The locked section of `sendPing`: the new fields, and whether the peer timed out. */
  function SendPing(s: Monitor, now: int): (Monitor, bool) {
    if s.pending != 0 then
      if s.missed + 1 >= MAX_MISSED_PONGS then (s.(missed := s.missed + 1), true)
      else (Monitor(now, s.missed + 1), false)
    else
      (Monitor(now, s.missed), false)
  }

  /** `handlePong`: the new fields, and the round-trip time when the PONG matched. */
  function HandlePong(s: Monitor, timestamp: int, now: int): (Monitor, Option<int>) {
    if s.pending == 0 || timestamp != s.pending then (s, None)
    else (IDLE, Some(now - timestamp))
  }

  datatype Call =
    | Ping(now: int)
    | Pong(timestamp: int, now: int)

  /** Clock readings are never zero. */
  predicate ClockNonzero(h: seq<Call>) {
    forall c | c in h :: c.now != 0
  }

  function Next(s: Monitor, c: Call): Monitor {
    if c.Ping? then SendPing(s, c.now).0 else HandlePong(s, c.timestamp, c.now).0
  }

  function After(s: Monitor, h: seq<Call>): Monitor {
    if h == [] then s else Next(After(s, h[..|h| - 1]), h[|h| - 1])
  }

  /** Some `sendPing` of the history signalled the timeout. */
  predicate Signalled(s: Monitor, h: seq<Call>) {
    h != [] &&
    (Signalled(s, h[..|h| - 1])
     || (h[|h| - 1].Ping? && SendPing(After(s, h[..|h| - 1]), h[|h| - 1].now).1))
  }

  /** Some PONG of the history matched the outstanding ping. */
  predicate Matched(s: Monitor, h: seq<Call>) {
    h != [] &&
    (Matched(s, h[..|h| - 1])
     || (h[|h| - 1].Pong?
         && HandlePong(After(s, h[..|h| - 1]), h[|h| - 1].timestamp, h[|h| - 1].now).1.Some?))
  }

  // ------------------------------------------- what the detector is meant to do

  /** The ping at `i` got its PONG before the next ping. */
  predicate Answered(h: seq<Call>, i: nat) {
    exists j :: i < j < |h| && h[j].Pong? && h[j].timestamp == h[i].now && NoPingBetween(h, i, j)
  }

  predicate NoPingBetween(h: seq<Call>, i: nat, j: nat)
    requires j <= |h|
  {
    forall k | i < k < j :: h[k].Pong?
  }

  /** The positions of the pings of a history, in order. */
  function Pings(h: seq<Call>): seq<nat> {
    if h == [] then []
    else Pings(h[..|h| - 1]) + if h[|h| - 1].Ping? then [|h| - 1] else []
  }

  /** The last `n` pings of the history went unanswered. */
  ghost predicate LastUnanswered(h: seq<Call>, n: nat) {
    n <= |Pings(h)| && forall x | |Pings(h)| - n <= x < |Pings(h)| :: !Answered(h, Pings(h)[x])
  }

  /** `Pings` lists exactly the pings, each once. */
  lemma {:induction false} PingsListed(h: seq<Call>)
    ensures Increasing(Pings(h)) && Below(Pings(h), |h|)
    ensures forall x | 0 <= x < |Pings(h)| :: h[Pings(h)[x]].Ping?
    ensures forall k | 0 <= k < |h| && h[k].Ping? :: k in Pings(h)
  {
    if h != [] {
      var init := h[..|h| - 1];
      PingsListed(init);
      AppendAbove(Pings(init), |init|);
      forall k | 0 <= k < |h| && h[k].Ping? ensures k in Pings(h) {
        if k < |init| {
          assert init[k].Ping?;
        }
      }
    }
  }

  // ------------------------------------------------------------------- exactness

  /** One more call answers at most the last ping. */
  lemma AnsweredAppend(h: seq<Call>, c: Call, i: nat)
    requires i < |h|
    ensures Answered(h + [c], i) <==>
            Answered(h, i) || (c.Pong? && c.timestamp == h[i].now && NoPingBetween(h, i, |h|))
  {
    var h' := h + [c];
    if Answered(h, i) {
      var j :| i < j < |h| && h[j].Pong? && h[j].timestamp == h[i].now && NoPingBetween(h, i, j);
      assert h'[j] == h[j] && NoPingBetween(h', i, j);
    }
    if c.Pong? && c.timestamp == h[i].now && NoPingBetween(h, i, |h|) {
      assert h'[|h|] == c && NoPingBetween(h', i, |h|);
    }
    if Answered(h', i) {
      var j :| i < j < |h'| && h'[j].Pong? && h'[j].timestamp == h'[i].now && NoPingBetween(h', i, j);
      assert forall k | i < k < j :: h'[k] == h[k];
      assert NoPingBetween(h, i, j);
    }
  }

  /** Only the last ping has no ping after it. */
  lemma LastPing(h: seq<Call>, x: nat)
    requires x < |Pings(h)|
    ensures Pings(h)[x] < |h| && (NoPingBetween(h, Pings(h)[x], |h|) <==> x == |Pings(h)| - 1)
  {
  }

  /** The outcome of each ping so far, with its timestamp; a PONG can only settle the last. */
  datatype Outcome = Outcome(now: int, answered: bool)

  function Outcomes(h: seq<Call>): seq<Outcome> {
    if h == [] then [] else Settle(Outcomes(h[..|h| - 1]), h[|h| - 1])
  }

  function Settle(os: seq<Outcome>, c: Call): seq<Outcome> {
    if c.Ping? then os + [Outcome(c.now, false)]
    else if os != [] && c.timestamp == os[|os| - 1].now then os[|os| - 1 := Outcome(c.timestamp, true)]
    else os
  }

  /** Outcome `x` is that of ping `x`. */
  lemma {:induction false} OutcomeMeans(h: seq<Call>, x: nat)
    ensures |Outcomes(h)| == |Pings(h)|
    ensures x < |Pings(h)| ==>
              && Pings(h)[x] < |h|
              && Outcomes(h)[x] == Outcome(h[Pings(h)[x]].now, Answered(h, Pings(h)[x]))
  {
    if h != [] {
      var init, c := h[..|h| - 1], h[|h| - 1];
      assert h == init + [c];
      OutcomeMeans(init, x);
      if x < |Pings(init)| {
        AnsweredAppend(init, c, Pings(init)[x]);
        LastPing(init, x);
      }
    }
  }

  predicate LastOpen(os: seq<Outcome>, n: nat) {
    n <= |os| && forall x | |os| - n <= x < |os| :: !os[x].answered
  }

  lemma LastOpenMeans(h: seq<Call>, n: nat)
    ensures LastOpen(Outcomes(h), n) <==> LastUnanswered(h, n)
  {
    OutcomeMeans(h, 0);
    forall x | 0 <= x < |Pings(h)| ensures Outcomes(h)[x].answered == Answered(h, Pings(h)[x]) {
      OutcomeMeans(h, x);
    }
  }

  /** What the two fields record about a history that has not timed out. */
  ghost predicate Records(s: Monitor, os: seq<Outcome>) {
    && s.Live()
    && (s.pending == 0 ==> os == [] || os[|os| - 1].answered)
    && (s.pending != 0 ==>
          && LastOpen(os, s.missed + 1)
          && os[|os| - 1].now == s.pending
          && (|os| == s.missed + 1 || os[|os| - s.missed - 2].answered))
  }

  lemma RecordsStep(s: Monitor, os: seq<Outcome>, c: Call)
    requires Records(s, os) && c.now != 0
    requires c.Ping? ==> !SendPing(s, c.now).1
    ensures Records(Next(s, c), Settle(os, c))
  {
  }

  lemma {:induction false} HistoryRecorded(h: seq<Call>)
    requires ClockNonzero(h) && !Signalled(IDLE, h)
    ensures Records(After(IDLE, h), Outcomes(h))
  {
    if h != [] {
      var init, c := h[..|h| - 1], h[|h| - 1];
      assert c in h;
      HistoryRecorded(init);
      RecordsStep(After(IDLE, init), Outcomes(init), c);
    }
  }

  lemma TimeoutRecorded(s: Monitor, os: seq<Outcome>, now: int)
    requires Records(s, os)
    ensures SendPing(s, now).1 <==> LastOpen(os, MAX_MISSED_PONGS)
  {
  }

  /**
   The detector is exact: the first timeout is signalled by a `sendPing` if and only if
   the last three pings before it each went without their PONG while outstanding.
   */
  lemma TimeoutExact(h: seq<Call>, now: int)
    requires ClockNonzero(h) && now != 0 && !Signalled(IDLE, h)
    ensures Signalled(IDLE, h + [Ping(now)]) <==> LastUnanswered(h, MAX_MISSED_PONGS)
    ensures After(IDLE, h).pending == 0 ==> After(IDLE, h).missed == 0
  {
    HistoryRecorded(h);
    TimeoutRecorded(After(IDLE, h), Outcomes(h), now);
    LastOpenMeans(h, MAX_MISSED_PONGS);
    assert (h + [Ping(now)])[..|h|] == h;
  }

  // ----------------------------------------------------------------- promptness

  /** How many more `sendPing` calls a silent peer survives, counting the one that signals. */
  function CallsLeft(s: Monitor): nat
    requires s.Live()
  {
    if s.pending == 0 then MAX_MISSED_PONGS + 1 else MAX_MISSED_PONGS - s.missed
  }

  function PingCount(h: seq<Call>): nat {
    if h == [] then 0 else PingCount(h[..|h| - 1]) + if h[|h| - 1].Ping? then 1 else 0
  }

  /**
   From any live state and with no matching PONG, the timeout is signalled exactly when
   `CallsLeft` pings have been attempted, which is never more than four; PONGs that do
   not match change nothing.
   */
  lemma {:induction false} SilenceSignals(s: Monitor, h: seq<Call>)
    requires s.Live() && ClockNonzero(h) && !Matched(s, h)
    ensures Signalled(s, h) <==> PingCount(h) >= CallsLeft(s)
    ensures 1 <= CallsLeft(s) <= 4
    ensures !Signalled(s, h) ==>
              After(s, h).Live() && CallsLeft(After(s, h)) == CallsLeft(s) - PingCount(h)
  {
    if h != [] {
      var init, c := h[..|h| - 1], h[|h| - 1];
      assert c in h;
      SilenceSignals(s, init);
    }
  }

  /**
   After a timeout nothing is forgotten: until the outstanding ping gets its PONG, every
   later `sendPing` signals again and the missed count goes on; that PONG resets both fields.
   */
  lemma {:induction false} TimeoutRepeats(s: Monitor, now: int, h: seq<Call>, later: int)
    requires SendPing(s, now).1 && !Matched(SendPing(s, now).0, h)
    ensures
      var s' := After(SendPing(s, now).0, h);
      && s'.pending == s.pending && s'.missed == s.missed + 1 + PingCount(h)
      && SendPing(s', later).1
      && HandlePong(s', s.pending, later) == (IDLE, Some(later - s.pending))
  {
    if h != [] {
      TimeoutRepeats(s, now, h[..|h| - 1], later);
    }
  }
}
