/**
  The correlator: the unnormalised autocorrelation of one frame of samples.

  Samples are exact reals, an abstraction of the 32-bit floats the program
  works on: rounding in the products and sums is not modelled.
 */
module Correlator {

  /** The left-to-right sum `((0 + x0) + x1) + ...` that `Iterator::sum` computes. */
  function Sum(xs: seq<real>): real
  {
    if |xs| == 0 then 0.0 else Sum(xs[..|xs| - 1]) + xs[|xs| - 1]
  }

  /** `a.iter().zip(b.iter()).map(|(x, y)| f(x, y))`: `f` applied pair by pair, stopping at
      the end of the shorter run. */
  function ZipWith<T>(f: (T, T) -> T, a: seq<T>, b: seq<T>): (r: seq<T>)
    ensures |r| == if |a| <= |b| then |a| else |b|
    ensures forall i :: 0 <= i < |r| ==> r[i] == f(a[i], b[i])
  {
    if |a| == 0 || |b| == 0 then [] else [f(a[0], b[0])] + ZipWith(f, a[1..], b[1..])
  }

  /** Pairwise products of two sample runs, zipped: the shorter run decides the length. */
  function PairProducts(a: seq<real>, b: seq<real>): (r: seq<real>)
    ensures |r| == if |a| <= |b| then |a| else |b|
    ensures forall i :: 0 <= i < |r| ==> r[i] == a[i] * b[i]
  {
    ZipWith((x: real, y: real) => x * y, a, b)
  }

  /** Entry `offset` of the autocorrelation: the first `|signal| - offset` samples
      multiplied pairwise with the samples from `offset` on, then summed. */
  function LagEntry(signal: seq<real>, offset: nat): real
    requires offset < |signal|
  {
    Sum(PairProducts(signal[..|signal| - offset], signal[offset..]))
  }

  /** The autocorrelation sequence of a frame: one entry per offset `0 .. |signal|`. */
  function Correlation(signal: seq<real>): (cor: seq<real>)
    ensures |cor| == |signal|
  {
    seq(|signal|, offset requires 0 <= offset < |signal| => LagEntry(signal, offset))
  }

  /** Reference definition: the sum over `i < m` of `signal[i] * signal[i + k]`, by index. */
  function LagSum(signal: seq<real>, k: nat, m: nat): real
    requires k + m <= |signal|
  {
    if m == 0 then 0.0 else LagSum(signal, k, m - 1) + signal[m - 1] * signal[m - 1 + k]
  }

  /** Taking `|signal| - k` samples and skipping `k` samples both leave `|signal| - k`
      samples, so the zip pairs `signal[i]` with `signal[i + k]` for every `i < |signal| - k`. */
  lemma {:induction false} ZippedRunsAlign(signal: seq<real>, k: nat)
    requires k <= |signal|
    ensures |signal[..|signal| - k]| == |signal| - k == |signal[k..]|
    ensures var p := PairProducts(signal[..|signal| - k], signal[k..]);
      |p| == |signal| - k && forall i :: 0 <= i < |p| ==> p[i] == signal[i] * signal[i + k]
  {
    var a, b := signal[..|signal| - k], signal[k..];
    var p := PairProducts(a, b);
    forall i | 0 <= i < |p|
      ensures p[i] == signal[i] * signal[i + k]
    {
      assert a[i] == signal[i] && b[i] == signal[i + k];
    }
  }

  lemma {:induction false} PrefixSumIsLagSum(signal: seq<real>, k: nat, m: nat)
    requires k + m <= |signal|
    ensures var p := PairProducts(signal[..|signal| - k], signal[k..]);
      m <= |p| && Sum(p[..m]) == LagSum(signal, k, m)
  {
    var p := PairProducts(signal[..|signal| - k], signal[k..]);
    ZippedRunsAlign(signal, k);
    if m > 0 {
      PrefixSumIsLagSum(signal, k, m - 1);
      PrefixSumStep(p, m);
    }
  }

  /** The sum of the first `m` entries adds entry `m - 1` to the sum of the first `m - 1`. */
  lemma PrefixSumStep(p: seq<real>, m: nat)
    requires 0 < m <= |p|
    ensures Sum(p[..m]) == Sum(p[..m - 1]) + p[m - 1]
  {
    assert p[..m][..m - 1] == p[..m - 1];
  }

  /** Entry `k` of the autocorrelation is the index sum over `i < |signal| - k` of `signal[i] * signal[i + k]`. */
  lemma CorrelationEntry(signal: seq<real>, k: nat)
    requires k < |signal|
    ensures Correlation(signal)[k] == LagSum(signal, k, |signal| - k)
  {
    var p := PairProducts(signal[..|signal| - k], signal[k..]);
    PrefixSumIsLagSum(signal, k, |signal| - k);
    assert p[..|signal| - k] == p;
  }

  /** The lag-0 sum is a sum of squares. */
  lemma {:induction false} SquaresNonNegative(signal: seq<real>, m: nat)
    requires m <= |signal|
    ensures LagSum(signal, 0, m) >= 0.0
  {
    if m > 0 {
      SquaresNonNegative(signal, m - 1);
      var x := signal[m - 1];
      assert x * x >= 0.0;
    }
  }

  /** Entry 0 is the energy of the frame, so it is never negative. */
  lemma EnergyNonNegative(signal: seq<real>)
    requires |signal| > 0
    ensures Correlation(signal)[0] >= 0.0
  {
    CorrelationEntry(signal, 0);
    SquaresNonNegative(signal, |signal|);
  }

  /** Entry 0 bounds every other entry in magnitude: `-cor[0] <= cor[k] <= cor[0]`. */
  lemma LagZeroDominates(signal: seq<real>, k: nat)
    requires k < |signal|
    ensures -Correlation(signal)[0] <= Correlation(signal)[k] <= Correlation(signal)[0]
  {
    CorrelationEntry(signal, 0);
    CorrelationEntry(signal, k);
    LagSumDominated(signal, k);
  }

  /** The lag-`k` sum is bounded in magnitude by the energy of the whole frame. */
  lemma LagSumDominated(signal: seq<real>, k: nat)
    requires k < |signal|
    ensures -LagSum(signal, 0, |signal|) <= LagSum(signal, k, |signal| - k) <= LagSum(signal, 0, |signal|)
  {
    var n := |signal|;
    LagSumBound(signal, k, n - k);
    EnergyMonotone(signal, n - k, n);
    ShiftedSquaresIsTail(signal, k, n - k);
    SquaresNonNegative(signal, k);
    HalveBound(LagSum(signal, k, n - k), LagSum(signal, 0, n - k),
               ShiftedSquares(signal, k, n - k), LagSum(signal, 0, n));
  }

  /** The sum over `i < m` of `signal[i + k] * signal[i + k]`. */
  function ShiftedSquares(signal: seq<real>, k: nat, m: nat): real
    requires k + m <= |signal|
  {
    if m == 0 then 0.0 else ShiftedSquares(signal, k, m - 1) + signal[m - 1 + k] * signal[m - 1 + k]
  }

  /** Twice a lag sum is bounded by the sums of squares of the two runs it pairs. */
  lemma {:induction false} LagSumBound(signal: seq<real>, k: nat, m: nat)
    requires k + m <= |signal|
    ensures BoundedBySquares(LagSum(signal, k, m), LagSum(signal, 0, m), ShiftedSquares(signal, k, m))
  {
    if m > 0 {
      LagSumBound(signal, k, m - 1);
      LagSumBoundStep(signal, k, m);
    }
  }

  /** `-(p + q) <= 2a <= p + q`. */
  ghost predicate BoundedBySquares(a: real, p: real, q: real)
  {
    -(p + q) <= 2.0 * a <= p + q
  }

  lemma LagSumBoundStep(signal: seq<real>, k: nat, m: nat)
    requires 0 < m && k + m <= |signal|
    requires BoundedBySquares(LagSum(signal, k, m - 1), LagSum(signal, 0, m - 1), ShiftedSquares(signal, k, m - 1))
    ensures BoundedBySquares(LagSum(signal, k, m), LagSum(signal, 0, m), ShiftedSquares(signal, k, m))
  {
    var x, y := signal[m - 1], signal[m - 1 + k];
    assert signal[m - 1 + 0] == x;
    BoundStep(LagSum(signal, k, m - 1), LagSum(signal, 0, m - 1), ShiftedSquares(signal, k, m - 1),
              LagSum(signal, k, m), LagSum(signal, 0, m), ShiftedSquares(signal, k, m), x, y);
  }

  lemma BoundStep(a: real, p: real, q: real, a': real, p': real, q': real, x: real, y: real)
    requires BoundedBySquares(a, p, q)
    requires a' == a + x * y && p' == p + x * x && q' == q + y * y
    ensures BoundedBySquares(a', p', q')
  {
    TwoProductBound(x, y);
    assert 2.0 * (a + x * y) == 2.0 * a + 2.0 * (x * y);
  }

  /** `2xy` lies between `-(x² + y²)` and `x² + y²`. */
  lemma TwoProductBound(x: real, y: real)
    ensures -(x * x + y * y) <= 2.0 * (x * y) <= x * x + y * y
  {
    SquareNonNegative(x - y);
    SquareNonNegative(x + y);
    assert (x - y) * (x - y) == x * x - 2.0 * (x * y) + y * y;
    assert (x + y) * (x + y) == x * x + 2.0 * (x * y) + y * y;
  }

  lemma SquareNonNegative(z: real)
    ensures z * z >= 0.0
  {
    if z < 0.0 {
      assert z * z == (-z) * (-z);
    }
  }

  lemma HalveBound(a: real, p: real, q: real, e: real)
    requires BoundedBySquares(a, p, q)
    requires p <= e && q <= e
    ensures -e <= a <= e
  {
  }

  /** The squares of the samples from `k` to `k + m` are the energy of the first `k + m`
      samples less that of the first `k`. */
  lemma {:induction false} ShiftedSquaresIsTail(signal: seq<real>, k: nat, m: nat)
    requires k + m <= |signal|
    ensures ShiftedSquares(signal, k, m) + LagSum(signal, 0, k) == LagSum(signal, 0, k + m)
  {
    if m > 0 {
      ShiftedSquaresIsTail(signal, k, m - 1);
    }
  }

  /** The energy of a prefix grows with the prefix, and is bounded by the whole frame's. */
  lemma {:induction false} EnergyMonotone(signal: seq<real>, m: nat, m': nat)
    requires m <= m' <= |signal|
    ensures LagSum(signal, 0, m) <= LagSum(signal, 0, m')
    ensures LagSum(signal, 0, m) >= 0.0
    decreases m' - m
  {
    SquaresNonNegative(signal, m);
    if m < m' {
      EnergyMonotone(signal, m + 1, m');
      var x := signal[m];
      assert x * x >= 0.0;
    }
  }

  lemma {:induction false} SilentLagSum(signal: seq<real>, k: nat, m: nat)
    requires k + m <= |signal|
    requires forall i :: 0 <= i < |signal| ==> signal[i] == 0.0
    ensures LagSum(signal, k, m) == 0.0
  {
    if m > 0 {
      SilentLagSum(signal, k, m - 1);
    }
  }

  /** An all-zero frame correlates to an all-zero sequence of the same length. */
  lemma SilenceCorrelatesToZero(signal: seq<real>)
    requires forall i :: 0 <= i < |signal| ==> signal[i] == 0.0
    ensures var cor := Correlation(signal);
      |cor| == |signal| && forall k :: 0 <= k < |cor| ==> cor[k] == 0.0
  {
    forall k | 0 <= k < |signal|
      ensures Correlation(signal)[k] == 0.0
    {
      CorrelationEntry(signal, k);
      SilentLagSum(signal, k, |signal| - k);
    }
  }

  lemma {:induction false} ConstantLagSum(signal: seq<real>, c: real, k: nat, m: nat)
    requires k + m <= |signal|
    requires forall i :: 0 <= i < |signal| ==> signal[i] == c
    ensures LagSum(signal, k, m) == m as real * (c * c)
  {
    if m > 0 {
      ConstantLagSum(signal, c, k, m - 1);
    }
  }

  /** A frame of `n` identical samples `c` has entry `k` equal to `(n - k) * c * c`;
      in particular entry 0 is `n * c * c`. */
  lemma ConstantSignal(signal: seq<real>, c: real, k: nat)
    requires forall i :: 0 <= i < |signal| ==> signal[i] == c
    requires k < |signal|
    ensures Correlation(signal)[k] == (|signal| - k) as real * (c * c)
  {
    ConstantLagSum(signal, c, k, |signal| - k);
    EntryFromLagSum(signal, k, (|signal| - k) as real * (c * c));
  }

  /** Any value the lag sum is known to equal is the autocorrelation entry. */
  lemma EntryFromLagSum(signal: seq<real>, k: nat, v: real)
    requires k < |signal|
    requires LagSum(signal, k, |signal| - k) == v
    ensures Correlation(signal)[k] == v
  {
    CorrelationEntry(signal, k);
  }

  /** Every entry of a constant frame's autocorrelation is non-negative. */
  lemma ConstantSignalNonNegative(signal: seq<real>, c: real)
    requires forall i :: 0 <= i < |signal| ==> signal[i] == c
    ensures forall k :: 0 <= k < |signal| ==> Correlation(signal)[k] >= 0.0
  {
    forall k | 0 <= k < |signal|
      ensures Correlation(signal)[k] >= 0.0
    {
      CorrelationEntry(signal, k);
      ConstantLagSumNonNegative(signal, c, k);
    }
  }

  lemma ConstantLagSumNonNegative(signal: seq<real>, c: real, k: nat)
    requires forall i :: 0 <= i < |signal| ==> signal[i] == c
    requires k < |signal|
    ensures LagSum(signal, k, |signal| - k) >= 0.0
  {
    ConstantLagSum(signal, c, k, |signal| - k);
    NonNegativeScale((|signal| - k) as real, c);
  }

  lemma NonNegativeScale(m: real, c: real)
    requires m >= 0.0
    ensures m * (c * c) >= 0.0
  {
    assert c * c >= 0.0;
  }

  /** For a non-zero constant frame the autocorrelation strictly decreases with the lag
      and stays positive. */
  lemma ConstantSignalDecreasing(signal: seq<real>, c: real, j: nat, k: nat)
    requires forall i :: 0 <= i < |signal| ==> signal[i] == c
    requires c != 0.0
    requires j < k < |signal|
    ensures Correlation(signal)[j] > Correlation(signal)[k] > 0.0
  {
    CorrelationEntry(signal, j);
    CorrelationEntry(signal, k);
    ConstantLagSumDecreasing(signal, c, j, k);
  }

  lemma ConstantLagSumDecreasing(signal: seq<real>, c: real, j: nat, k: nat)
    requires forall i :: 0 <= i < |signal| ==> signal[i] == c
    requires c != 0.0
    requires j < k < |signal|
    ensures LagSum(signal, j, |signal| - j) > LagSum(signal, k, |signal| - k) > 0.0
  {
    ConstantLagSum(signal, c, j, |signal| - j);
    ConstantLagSum(signal, c, k, |signal| - k);
    PositiveSquare(c);
    ScaledPair(LagSum(signal, j, |signal| - j), LagSum(signal, k, |signal| - k),
               (|signal| - j) as real, (|signal| - k) as real, c * c);
  }

  lemma ScaledPair(cj: real, ck: real, mj: real, mk: real, x: real)
    requires cj == mj * x && ck == mk * x
    requires 0.0 < mk < mj && x > 0.0
    ensures cj > ck > 0.0
  {
    ScaleStrictlyMonotone(mk, mj, x);
    ScaleStrictlyMonotone(0.0, mk, x);
  }

  lemma PositiveSquare(c: real)
    requires c != 0.0
    ensures c * c > 0.0
  {
    if c < 0.0 {
      assert c * c == (-c) * (-c);
    }
  }

  lemma ScaleStrictlyMonotone(a: real, b: real, x: real)
    requires a < b && x > 0.0
    ensures a * x < b * x
  {
    assert b * x - a * x == (b - a) * x;
  }
}
