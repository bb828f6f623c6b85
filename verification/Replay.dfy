/**
 Whole runs of one receiving codec between two resets of its receive nonce, over a
 network that loses, repeats and reorders the peer's datagrams and adds datagrams
 whose tag does not verify.
 */
module Replay {
  import opened ByteOrder
  import opened Protocol

  datatype Datagram =
    | Sealed(m: Message, nonce: U64)   // what the peer's codec encoded under `nonce`
    | Junk(data: Bytes)                // anything whose tag does not verify
  {
    function Data(a: Auth): Bytes {
      if Sealed? then Seal(a, nonce, m) else data
    }

    /** The network delivers the peer's datagrams unmodified, or junk. */
    predicate Arrives(a: Auth) {
      if Sealed? then m.Valid() else !Authentic(a, data)
    }

    /** Subject to the receive-nonce check. */
    predicate Checked() {
      Sealed? && !m.Handshake()
    }

    /** Sealed by a counter that has wrapped: honest counters start at 1. */
    predicate Wrapped() {
      Checked() && nonce == 0
    }
  }

  predicate AllArrive(a: Auth, ds: seq<Datagram>) {
    forall d | d in ds :: d.Arrives(a)
  }

  /** No wrapped nonce after position `j`. */
  predicate UnwrappedSince(ds: seq<Datagram>, j: int) {
    forall k | 0 <= k < |ds| && j < k :: !ds[k].Wrapped()
  }

  /** `recvNonce` after decoding `ds` from `r`. */
  function NonceAfter(a: Auth, r: U64, ds: seq<Datagram>): U64 {
    if ds == [] then r
    else Unseal(a, NonceAfter(a, r, ds[..|ds| - 1]), ds[|ds| - 1].Data(a)).1
  }

  /** The result of decoding the i-th datagram of a run. */
  function ResultAt(a: Auth, r: U64, ds: seq<Datagram>, i: nat): Result<Message>
    requires i < |ds|
  {
    Unseal(a, NonceAfter(a, r, ds[..i]), ds[i].Data(a)).0
  }

  /**
   `n` is larger than every checked nonce since the last wrapped one, that one included,
   and larger than `r` if there was none.
   */
  predicate Above(r: U64, ds: seq<Datagram>, n: U64) {
    && (UnwrappedSince(ds, -1) ==> r < n)
    && forall j | 0 <= j < |ds| && ds[j].Checked() && UnwrappedSince(ds, j) :: ds[j].nonce < n
  }

  lemma AboveNext(r: U64, ds: seq<Datagram>, d: Datagram, n: U64)
    ensures Above(r, ds + [d], n) <==>
              if d.Wrapped() then 0 < n else Above(r, ds, n) && (d.Checked() ==> d.nonce < n)
  {
    var all := ds + [d];
    assert all[|ds|] == d && UnwrappedSince(all, |ds|);
    forall j | -1 <= j < |ds|
      ensures UnwrappedSince(all, j) <==> UnwrappedSince(ds, j) && !d.Wrapped()
    {
      assert forall k | 0 <= k < |ds| :: all[k] == ds[k];
    }
    assert forall k | 0 <= k < |ds| :: all[k] == ds[k];
  }

  /** `recvNonce` is the largest nonce since the last wrapped one, accepted or not. */
  lemma {:induction false} NonceIsMaximum(a: Auth, r: U64, ds: seq<Datagram>, n: U64)
    requires a.Secure() && AllArrive(a, ds)
    ensures NonceAfter(a, r, ds) < n <==> Above(r, ds, n)
  {
    if ds != [] {
      var init, d := ds[..|ds| - 1], ds[|ds| - 1];
      assert d in ds && d.Arrives(a) && ds == init + [d];
      NonceIsMaximum(a, r, init, n);
      AboveNext(r, init, d, n);
      if d.Sealed? {
        RoundTrip(a, NonceAfter(a, r, init), d.nonce, d.m);
      } else {
        ForgeryRefused(a, NonceAfter(a, r, init), d.data);
      }
    }
  }

  /**
   The accepted datagrams of a run are exactly the handshake messages, those with a zero
   nonce, and those whose nonce is a strict maximum since the last zero nonce; every other
   datagram of the peer is refused as a replay, and junk is refused.
   */
  lemma AcceptedAreRecords(a: Auth, r: U64, ds: seq<Datagram>, i: nat)
    requires a.Secure() && AllArrive(a, ds) && i < |ds|
    ensures
      var d := ds[i];
      if !d.Sealed? then ResultAt(a, r, ds, i).Err?
      else if d.m.Handshake() || d.nonce == 0 || Above(r, ds[..i], d.nonce) then ResultAt(a, r, ds, i) == Ok(d.m)
      else ResultAt(a, r, ds, i) == Err(ReplayDetected)
  {
    var before, d := NonceAfter(a, r, ds[..i]), ds[i];
    assert d in ds;
    if d.Sealed? {
      NonceIsMaximum(a, r, ds[..i], d.nonce);
      RoundTrip(a, before, d.nonce, d.m);
    } else {
      ForgeryRefused(a, before, d.data);
    }
  }

  /**
   Until a counter wraps, nothing subject to the check is accepted twice or out of nonce
   order, and nothing at or below the starting value is accepted.
   */
  lemma AcceptedNoncesIncrease(a: Auth, r: U64, ds: seq<Datagram>, i: nat, j: nat)
    requires a.Secure() && AllArrive(a, ds) && i < j < |ds|
    requires ds[i].Checked() && ds[j].Checked() && ResultAt(a, r, ds, i).Ok? && ResultAt(a, r, ds, j).Ok?
    ensures UnwrappedSince(ds[..j + 1], i) ==> ds[i].nonce < ds[j].nonce
    ensures UnwrappedSince(ds[..j + 1], -1) ==> r < ds[i].nonce
  {
    AcceptedAreRecords(a, r, ds, i);
    AcceptedAreRecords(a, r, ds, j);
    assert ds[..j][i] == ds[i] && ds[..j + 1][i] == ds[i] && ds[..j + 1][j] == ds[j];
    assert forall k | 0 <= k < j :: ds[..j + 1][k] == ds[..j][k];
    assert UnwrappedSince(ds[..j + 1], i) ==> UnwrappedSince(ds[..j], i);
    assert forall k | 0 <= k < i :: ds[..j + 1][k] == ds[..i][k];
    assert UnwrappedSince(ds[..j + 1], -1) ==> UnwrappedSince(ds[..i], -1);
  }

  /**
   No false replay: after a reset, the peer's datagrams delivered in nonce order are
   all accepted, wherever its counter restarted and whatever junk lies between.
   */
  lemma InOrderNeverReplay(a: Auth, ds: seq<Datagram>, i: nat)
    requires a.Secure() && AllArrive(a, ds)
    requires forall j, k | 0 <= j < k < |ds| && ds[j].Checked() && ds[k].Checked() :: ds[j].nonce < ds[k].nonce
    requires i < |ds| && ds[i].Sealed?
    ensures ResultAt(a, 0, ds, i) == Ok(ds[i].m)
  {
    AcceptedAreRecords(a, 0, ds, i);
    assert ds[i].Checked() && ds[i].nonce > 0 ==> Above(0, ds[..i], ds[i].nonce);
  }

  /**
   Why the order is lost once a counter has wrapped: the datagram with nonce zero is
   accepted at any time and lets in a datagram that was accepted before.
   */
  lemma WrappedNonceReopensWindow(a: Auth, r: U64, m: Message, zero: Message, n: U64)
    requires a.Secure() && m.Valid() && zero.Valid() && !m.Handshake() && !zero.Handshake() && r < n
    ensures
      var ds := [Sealed(m, n), Sealed(zero, 0), Sealed(m, n)];
      forall i | 0 <= i < 3 :: ResultAt(a, r, ds, i) == Ok(ds[i].m)
  {
    var ds := [Sealed(m, n), Sealed(zero, 0), Sealed(m, n)];
    assert ds[..0] == [] && ds[..1] == [ds[0]] && ds[..2] == [ds[0], ds[1]];
    assert ds[..1][..0] == [] && ds[..2][..1] == ds[..1];
    RoundTrip(a, r, n, m);
    RoundTrip(a, n, 0, zero);
    RoundTrip(a, 0, n, m);
    assert NonceAfter(a, r, ds[..0]) == r;
    assert NonceAfter(a, r, ds[..1]) == n;
    assert NonceAfter(a, r, ds[..2]) == 0;
  }
}
