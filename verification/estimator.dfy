/** The correlator and the peak selector composed, as the analysis loop runs them on each frame. */
module Estimator {
  import Correlator
  import PeakSelector

  /** The frequency estimate of one frame. */
  function EstimateFrame(signal: seq<real>): PeakSelector.Frequency
  {
    PeakSelector.GetPeak(Correlator.Correlation(signal))
  }

  /** Entry 0 of an autocorrelation is a sum of squares, so it is never negative: the
      estimate of any frame never divides by a zero lag. */
  lemma NeverDividesByZero(signal: seq<real>)
    ensures EstimateFrame(signal).Finite?
  {
    if |signal| > 0 {
      Correlator.EnergyNonNegative(signal);
      PeakSelector.NonNegativeLeadIsFinite(Correlator.Correlation(signal));
    }
  }

  /** The first negative entry of an autocorrelation is at lag 1 or later, and so is the
      lag chosen after it. */
  lemma ChosenLagPositive(signal: seq<real>)
    ensures var pk := PeakSelector.SelectPeak(Correlator.Correlation(signal));
      pk.PeakAt? ==> pk.index >= 1
  {
    if |signal| > 0 {
      Correlator.EnergyNonNegative(signal);
      PeakSelector.NonNegativeLeadIsFinite(Correlator.Correlation(signal));
    }
  }

  /** A silent frame has an all-zero autocorrelation, which never goes negative: the
      estimate is the "no fundamental" sentinel 0. */
  lemma SilentFrameHasNoPitch(signal: seq<real>)
    requires forall i :: 0 <= i < |signal| ==> signal[i] == 0.0
    ensures EstimateFrame(signal) == PeakSelector.Finite(0.0)
  {
    Correlator.SilenceCorrelatesToZero(signal);
  }

  /** A constant frame has an autocorrelation of non-negative entries `(n - k) * c * c`,
      so it gets the sentinel too. */
  lemma ConstantFrameHasNoPitch(signal: seq<real>, c: real)
    requires forall i :: 0 <= i < |signal| ==> signal[i] == c
    ensures EstimateFrame(signal) == PeakSelector.Finite(0.0)
  {
    Correlator.ConstantSignalNonNegative(signal, c);
  }
}
