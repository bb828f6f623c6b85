/**
 Bytes, the fixed-width integers of the wire format, and big-endian encoding
 (Go's `encoding/binary.BigEndian`).
 */
module ByteOrder {

  const TWO_63 := 0x8000_0000_0000_0000
  const TWO_64 := 0x1_0000_0000_0000_0000

  type Byte = x: int | 0 <= x < 256
  type Bytes = seq<Byte>
  type U64 = x: int | 0 <= x < TWO_64
  type I64 = x: int | -TWO_63 <= x < TWO_63

  /** The conversion `uint64(x)` of a signed value. */
  function ToU64(x: I64): U64 {
    if x < 0 then x + TWO_64 else x
  }

  /** The conversion `int64(x)` of an unsigned value. */
  function ToI64(x: U64): I64 {
    if x < TWO_63 then x else x - TWO_64
  }

  function Pow256(k: nat): nat {
    if k == 0 then 1 else 256 * Pow256(k - 1)
  }

  /** The `k` low-order base-256 digits of `n`, most significant first. */
  function BigEndian(n: nat, k: nat): (s: Bytes)
    ensures |s| == k
  {
    if k == 0 then [] else BigEndian(n / 256, k - 1) + [n % 256]
  }

  /** The number a big-endian byte string denotes. */
  function Value(s: Bytes): nat {
    if s == [] then 0 else 256 * Value(s[..|s| - 1]) + s[|s| - 1]
  }

  lemma {:induction false} ValueOfBigEndian(n: nat, k: nat)
    requires n < Pow256(k)
    ensures Value(BigEndian(n, k)) == n
  {
    if k > 0 {
      ValueOfBigEndian(n / 256, k - 1);
      assert BigEndian(n, k)[..k - 1] == BigEndian(n / 256, k - 1);
    }
  }

  lemma {:induction false} BigEndianOfValue(s: Bytes)
    ensures Value(s) < Pow256(|s|)
    ensures BigEndian(Value(s), |s|) == s
  {
    if s != [] {
      BigEndianOfValue(s[..|s| - 1]);
      assert s == s[..|s| - 1] + [s[|s| - 1]];
    }
  }

  /** Most significant byte first: byte `i` of `k` is the base-256 digit of weight 256^(k-1-i). */
  lemma {:induction false} BigEndianDigit(n: nat, k: nat, i: nat)
    requires i < k
    ensures Pow256(k - 1 - i) > 0 && BigEndian(n, k)[i] == n / Pow256(k - 1 - i) % 256
    decreases k
  {
    PowPositive(k - 1 - i);
    if i < k - 1 {
      BigEndianDigit(n / 256, k - 1, i);
      PowPositive(k - 2 - i);
      DivideTwice(n, Pow256(k - 2 - i));
    }
  }

  lemma {:induction false} PowPositive(k: nat)
    ensures Pow256(k) > 0
  {
    if k > 0 {
      PowPositive(k - 1);
    }
  }

  lemma DivideTwice(n: nat, d: nat)
    requires d > 0
    ensures n / 256 / d == n / (256 * d)
  {
    var q, r := n / 256 / d, n / 256 % d;
    assert n / 256 == d * q + r;
    assert n == 256 * (d * q + r) + n % 256;
    assert n == (256 * d) * q + (256 * r + n % 256);
    assert 256 * r + n % 256 < 256 * d;
    QuotientUnique(n, 256 * d, q, 256 * r + n % 256);
  }

  lemma QuotientUnique(n: nat, d: nat, q: nat, r: nat)
    requires d > 0 && n == d * q + r && r < d
    ensures n / d == q
  {
    assert n == d * (n / d) + n % d;
    MultiplesApart(d, n / d, q);
    MultiplesApart(d, q, n / d);
  }

  lemma MultiplesApart(d: nat, p: nat, q: nat)
    ensures p < q ==> d * p + d <= d * q
  {
    if p < q {
      assert d * q == d * (p + 1) + d * (q - p - 1);
    }
  }

  /** The two casts are two's complement: they change a number by a multiple of 2^64. */
  lemma TwosComplement(x: I64, u: U64)
    ensures (ToU64(x) - x) % TWO_64 == 0 && (ToI64(u) - u) % TWO_64 == 0
    ensures ToI64(ToU64(x)) == x && ToU64(ToI64(u)) == u
  {
  }

  lemma Pow256Widths()
    ensures Pow256(2) == 0x1_0000 && Pow256(8) == TWO_64
  {
  }

  /** Eight bytes and a 64-bit number determine each other. */
  lemma Words64(n: U64, s: Bytes)
    requires |s| == 8
    ensures Value(BigEndian(n, 8)) == n
    ensures 0 <= Value(s) < TWO_64 && BigEndian(Value(s), 8) == s
  {
    Pow256Widths();
    ValueOfBigEndian(n, 8);
    BigEndianOfValue(s);
  }

  /** Two bytes and a 16-bit number determine each other. */
  lemma Words16(n: nat, s: Bytes)
    requires n < 0x1_0000 && |s| == 2
    ensures Value(BigEndian(n, 2)) == n
    ensures Value(s) < 0x1_0000 && BigEndian(Value(s), 2) == s
  {
    Pow256Widths();
    ValueOfBigEndian(n, 2);
    BigEndianOfValue(s);
  }

  /** `PutUint16`/`PutUint64`: writes `n` into `a[at..at+k]`, last byte first. */
  method PutBigEndian(a: array<Byte>, at: nat, k: nat, n: nat)
    requires at + k <= a.Length
    modifies a
    ensures a[at..at + k] == BigEndian(n, k)
    ensures forall j | 0 <= j < a.Length && !(at <= j < at + k) :: a[j] == old(a[j])
  {
    var i, v := k, n;
    while i > 0
      invariant 0 <= i <= k
      invariant BigEndian(n, k) == BigEndian(v, i) + a[at + i..at + k]
      invariant forall j | 0 <= j < a.Length && !(at <= j < at + k) :: a[j] == old(a[j])
    {
      ghost var tail := a[at + i..at + k];
      i := i - 1;
      a[at + i] := v % 256;
      assert a[at + i..at + k] == [v % 256] + tail;
      v := v / 256;
    }
  }

  /** Go's `copy(a[at:], s)` for a source that fits. */
  method CopyInto(a: array<Byte>, at: nat, s: Bytes)
    requires at + |s| <= a.Length
    modifies a
    ensures a[at..at + |s|] == s
    ensures forall j | 0 <= j < a.Length && !(at <= j < at + |s|) :: a[j] == old(a[j])
  {
    for i := 0 to |s|
      invariant a[at..at + i] == s[..i]
      invariant forall j | 0 <= j < a.Length && !(at <= j < at + |s|) :: a[j] == old(a[j])
    {
      a[at + i] := s[i];
      assert a[at..at + i + 1] == a[at..at + i] + [s[i]];
    }
  }
}
