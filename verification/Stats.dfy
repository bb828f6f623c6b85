/**
 Round-trip statistics (internal/bridge/bridge.go, type Stats): an incremental window
 of the last 20 samples in 64-bit arithmetic, compared with the plain mean over the
 history, and the spike test.
 */
module Stats {
  import opened ByteOrder

  const WINDOW := 20
  const TWO_53 := 0x20_0000_0000_0000

  /** 64-bit signed addition and subtraction wrap. */
  function Wrap(x: int): I64 {
    (x + TWO_63) % TWO_64 - TWO_63
  }

  predicate Fits(x: int) {
    -TWO_63 <= x < TWO_63
  }

  /** Go's integer division, for a positive divisor: truncation toward zero. */
  function Quotient(x: int, k: int): int
    requires k > 0
  {
    if x >= 0 then x / k else -(-x / k)
  }

  function Sum(xs: seq<int>): int {
    if xs == [] then 0 else Sum(xs[..|xs| - 1]) + xs[|xs| - 1]
  }

  /** The last 20 samples, or all of them while there are fewer. */
  function LastSamples(history: seq<I64>): seq<I64> {
    if |history| <= WINDOW then history else history[|history| - WINDOW..]
  }

  /** The mean the average field stands for. */
  function Mean(history: seq<I64>): int
    requires history != []
  {
    Quotient(Sum(LastSamples(history)), |LastSamples(history)|)
  }

  /**
   The conversion of an int64 to float64: some function that is exact on integers of
   magnitude up to 2^53. Halving a float64 is exact, so nothing more is needed.
   */
  type Float64Of = f: int -> real
    | forall x: int | -TWO_53 <= x <= TWO_53 :: f(x) == x as real
    witness x => x as real

  // -------------------------------------------------------------- arithmetic

  lemma WrapAgain(x: int, y: int)
    ensures Wrap(Wrap(x) + y) == Wrap(x + y)
    ensures Fits(x) ==> Wrap(x) == x
    ensures !Fits(x) ==> Wrap(x) - x >= TWO_64 || x - Wrap(x) >= TWO_64
  {
  }

  lemma SumAppend(xs: seq<int>, x: int)
    ensures Sum(xs + [x]) == Sum(xs) + x
  {
    assert (xs + [x])[..|xs|] == xs;
  }

  lemma WindowSlides(history: seq<I64>, x: I64)
    ensures
      var w := LastSamples(history) + [x];
      LastSamples(history + [x]) == (if |w| > WINDOW then w[1..] else w) != []
  {
  }

  lemma {:induction false} SumTail(xs: seq<int>)
    requires xs != []
    ensures Sum(xs) == xs[0] + Sum(xs[1..])
  {
    if |xs| > 1 {
      var init := xs[..|xs| - 1];
      SumTail(init);
      assert xs[1..][..|xs| - 2] == init[1..];
    }
  }

  lemma {:induction false} SumBounds(xs: seq<int>, lo: int, hi: int)
    requires forall i | 0 <= i < |xs| :: lo <= xs[i] <= hi
    ensures |xs| * lo <= Sum(xs) <= |xs| * hi
  {
    if xs != [] {
      SumBounds(xs[..|xs| - 1], lo, hi);
      assert |xs| * lo == (|xs| - 1) * lo + lo && |xs| * hi == (|xs| - 1) * hi + hi;
    }
  }

  lemma Scale(k: nat, x: int, y: int)
    requires x <= y
    ensures k * x <= k * y
  {
  }

  lemma Unscale(k: nat, x: int, y: int)
    requires k * x < k * y
    ensures x < y
  {
  }

  lemma QuotientNear(x: int, k: int)
    requires k > 0
    ensures x - k < k * Quotient(x, k) < x + k
  {
  }

  lemma QuotientBounds(x: int, k: int, lo: int, hi: int)
    requires k > 0 && k * lo <= x <= k * hi
    ensures lo <= Quotient(x, k) <= hi
  {
    QuotientNear(x, k);
    var q := Quotient(x, k);
    assert k * (lo - 1) == k * lo - k && k * (hi + 1) == k * hi + k;
    Unscale(k, lo - 1, q);
    Unscale(k, q, hi + 1);
  }

  /** Quotients of numbers at least 2^64 apart differ, for the divisors that occur. */
  lemma QuotientApart(x: int, y: int, k: int)
    requires 1 <= k <= WINDOW && y - x >= TWO_64
    ensures Quotient(x, k) < Quotient(y, k)
  {
    QuotientNear(x, k);
    QuotientNear(y, k);
    Unscale(k, Quotient(x, k), Quotient(y, k));
  }

  lemma QuotientFits(x: int, k: int)
    requires k > 0 && Fits(x)
    ensures Fits(Quotient(x, k))
  {
  }

  // -------------------------------------------------------------- properties

  /** What the running sum and the average are, for any samples at all. */
  ghost predicate Tracks(history: seq<I64>, samples: seq<I64>, sum: I64, avg: I64) {
    && samples == LastSamples(history)
    && sum == Wrap(Sum(samples))
    && (history != [] ==> avg == Wrap(Quotient(sum, |samples|)))
  }

  /**
   The average is the truncated mean of the last 20 samples if and only if the sum of
   those samples fits in 64 bits, even though an intermediate sum of 21 may wrap.
   */
  lemma AverageExact(history: seq<I64>, samples: seq<I64>, sum: I64, avg: I64)
    requires history != [] && Tracks(history, samples, sum, avg)
    ensures avg == Mean(history) <==> Fits(Sum(LastSamples(history)))
  {
    var s, k := Sum(samples), |samples|;
    WrapAgain(s, 0);
    QuotientFits(sum, k);
    WrapAgain(Quotient(sum, k), 0);
    if !Fits(s) {
      if sum - s >= TWO_64 {
        QuotientApart(s, sum, k);
      } else {
        QuotientApart(sum, s, k);
      }
    }
  }

  /** Truncation toward zero: the quotient is the integer next to x / k on the side of zero. */
  lemma QuotientTruncates(x: int, k: int)
    requires k > 0
    ensures x >= 0 ==> k * Quotient(x, k) <= x < k * (Quotient(x, k) + 1)
    ensures x <= 0 ==> k * (Quotient(x, k) - 1) < x <= k * Quotient(x, k)
  {
  }

  /** While the sum fits, the average is the mean of the last samples rounded toward zero. */
  lemma AverageTruncates(history: seq<I64>, samples: seq<I64>, sum: I64, avg: I64)
    requires history != [] && Tracks(history, samples, sum, avg) && Fits(Sum(LastSamples(history)))
    ensures
      var total, k := Sum(LastSamples(history)), |LastSamples(history)|;
      && (total >= 0 ==> k * avg <= total < k * (avg + 1))
      && (total <= 0 ==> k * (avg - 1) < total <= k * avg)
  {
    AverageExact(history, samples, sum, avg);
    QuotientTruncates(Sum(LastSamples(history)), |LastSamples(history)|);
  }

  /** Samples of magnitude below 2^63/20 ns (about 14 years) keep the average exact and between its extremes. */
  lemma AverageBetween(history: seq<I64>, samples: seq<I64>, sum: I64, avg: I64, lo: int, hi: int)
    requires history != [] && Tracks(history, samples, sum, avg)
    requires forall i | 0 <= i < |LastSamples(history)| :: lo <= LastSamples(history)[i] <= hi
    requires -(TWO_63 / WINDOW) <= lo <= hi < TWO_63 / WINDOW
    ensures avg == Mean(history) && lo <= avg <= hi
  {
    var s, k := Sum(samples), |samples|;
    SumBounds(samples, lo, hi);
    assert Fits(s) by {
      assert k * hi <= k * (TWO_63 / WINDOW - 1) by { Scale(k, hi, TWO_63 / WINDOW - 1); }
      assert k * -(TWO_63 / WINDOW) <= k * lo by { Scale(k, -(TWO_63 / WINDOW), lo); }
    }
    AverageExact(history, samples, sum, avg);
    QuotientBounds(s, k, lo, hi);
  }

  /** The spike rule as stated over the samples: previous positive, current more than half as large again. */
  predicate Spike(history: seq<int>) {
    |history| >= 2 &&
    var previous, current := history[|history| - 2], history[|history| - 1];
    previous > 0 && 2 * (current - previous) > previous
  }

  /** The durations the float comparison is exact for: up to 2^53 ns, about 104 days. */
  predicate SpikeExact(previous: int, current: int) {
    -TWO_53 <= previous <= TWO_53 && -TWO_53 <= current - previous <= TWO_53
  }

  // -------------------------------------------------------------------- class

  class Stats {
    var rttCurrent: I64
    var rttAvg: I64
    var rttSamples: seq<I64>
    var rttSum: I64
    var lastRTT: I64
    ghost var history: seq<I64>   // every sample added so far

    ghost predicate Valid()
      reads this
    {
      && Tracks(history, rttSamples, rttSum, rttAvg)
      && rttCurrent == if history == [] then 0 else history[|history| - 1]
    }

    constructor ()
      ensures Valid() && history == [] && lastRTT == 0
    {
      rttCurrent, rttAvg, rttSum, lastRTT := 0, 0, 0, 0;
      rttSamples, history := [], [];
    }

    method AddRTTSample(rtt: I64)
      requires Valid()
      modifies this`rttCurrent, this`rttAvg, this`rttSamples, this`rttSum, this`history
      ensures Valid() && history == old(history) + [rtt]
    {
      hide Wrap, Sum, Quotient, LastSamples;
      ghost var before := rttSamples;
      rttCurrent := rtt;
      rttSamples := rttSamples + [rtt];
      SumAppend(before, rtt);
      WrapAgain(Sum(before), rtt);
      rttSum := Wrap(rttSum + rtt);
      WindowSlides(history, rtt);
      if |rttSamples| > WINDOW {
        var oldest: int := rttSamples[0];
        SumTail(rttSamples);
        WrapAgain(Sum(rttSamples), -oldest);
        rttSum := Wrap(rttSum - oldest);
        rttSamples := rttSamples[1..];
      }
      rttAvg := Wrap(Quotient(rttSum, |rttSamples|));
      history := history + [rtt];
    }

    method CheckRTTSpike(f: Float64Of) returns (spiked: bool, oldRTT: I64, newRTT: I64)
      ensures spiked <==>
              && |rttSamples| >= 2 && lastRTT > 0
              && f(Wrap(rttCurrent - lastRTT)) > f(lastRTT) * 0.5
      ensures spiked ==> oldRTT == lastRTT && newRTT == rttCurrent
    {
      if |rttSamples| < 2 || lastRTT == 0 {
        return false, 0, 0;
      }
      var current: int, previous: int := rttCurrent, lastRTT;
      if previous > 0 && f(Wrap(current - previous)) > f(previous) * 0.5 {
        return true, previous, current;
      }
      return false, 0, 0;
    }

    method SetLastRTT(rtt: I64)
      modifies this`lastRTT
      ensures lastRTT == rtt
    {
      lastRTT := rtt;
    }

    /** The statistics part of `handlePong`, run once per matching PONG. */
    method RecordPong(f: Float64Of, rtt: I64) returns (spiked: bool)
      requires Valid()
      modifies this
      ensures Valid() && history == old(history) + [rtt]
      ensures lastRTT == old(rttCurrent)
      ensures SpikeExact(old(rttCurrent), rtt) ==> (spiked <==> Spike(history))
    {
      SetLastRTT(rttCurrent);
      AddRTTSample(rtt);
      WrapAgain(rttCurrent - lastRTT, 0);

      var oldRTT, newRTT;
      spiked, oldRTT, newRTT := CheckRTTSpike(f);
    }
  }
}
