/**
  The peak selector: from an autocorrelation sequence, the lag of the strongest
  entry after the first negative one, turned into a frequency at a fixed
  48000 Hz sample rate.
 */
module PeakSelector {
  import opened Wrappers

  /** The sample rate the frequency is computed with. It is fixed, whatever rate the
      capture device actually runs at. */
  const SampleRate: real := 48000.0

  /** The value `get_peak` produces: a finite float, or the `+inf` that a float
      division by a zero lag yields. */
  datatype Frequency = Finite(hz: real) | Infinite

  /** The lag chosen from an autocorrelation sequence, or none when no entry is negative. */
  datatype Peak = NoFundamental | PeakAt(index: nat)

  /** `position(|&c| c < 0.0)` over the entries from `from` on. */
  function FirstNegativeFrom(cor: seq<real>, from: nat): (p: Option<nat>)
    requires from <= |cor|
    ensures p.Some? ==> from <= p.value < |cor| && cor[p.value] < 0.0
    ensures p.Some? ==> forall i :: from <= i < p.value ==> cor[i] >= 0.0
    ensures p.None? <==> forall i :: from <= i < |cor| ==> cor[i] >= 0.0
    decreases |cor| - from
  {
    if from == |cor| then None
    else if cor[from] < 0.0 then Some(from)
    else FirstNegativeFrom(cor, from + 1)
  }

  /** Index of the first negative entry, where the zero-lag peak is taken to end. */
  function FirstPeakEnd(cor: seq<real>): Option<nat>
  {
    FirstNegativeFrom(cor, 0)
  }

  /** The fold's step: an entry replaces the accumulator only when strictly greater,
      so on a tie the earlier lag stays. */
  function Step(acc: (nat, real), lag: nat, value: real): (nat, real)
  {
    if value > acc.1 then (lag, value) else acc
  }

  /** `enumerate().skip(lag).fold(acc, Step)` over the entries from `lag` on.

      Either nothing from `lag` on beats the accumulator's value, and it comes back
      unchanged, or the result is the earliest lag holding the maximum of that
      suffix, and that maximum exceeds the accumulator's value. */
  function FoldFrom(cor: seq<real>, lag: nat, acc: (nat, real)): (r: (nat, real))
    requires lag <= |cor|
    ensures forall i :: lag <= i < |cor| ==> cor[i] <= r.1
    ensures r.1 >= acc.1
    ensures r == acc || (lag <= r.0 < |cor| && r.1 == cor[r.0] && r.1 > acc.1)
    ensures r == acc <==> forall i :: lag <= i < |cor| ==> cor[i] <= acc.1
    ensures r != acc ==> forall i :: lag <= i < r.0 ==> cor[i] < r.1
    decreases |cor| - lag
  {
    if lag == |cor| then acc else FoldFrom(cor, lag + 1, Step(acc, lag, cor[lag]))
  }

  /** The lag `get_peak` settles on, before it turns it into a frequency. */
  function SelectPeak(cor: seq<real>): (pk: Peak)
    ensures pk.NoFundamental? <==> forall i :: 0 <= i < |cor| ==> cor[i] >= 0.0
    ensures pk.PeakAt? ==> pk.index < |cor|
  {
    match FirstPeakEnd(cor)
    case None => NoFundamental
    case Some(f) => PeakAt(FoldFrom(cor, f, (f, 0.0)).0)
  }

  /** `get_peak`: the "no fundamental" sentinel `0` when no entry is negative, otherwise
      the sample rate divided by the chosen lag. */
  function GetPeak(cor: seq<real>): (r: Frequency)
    ensures r == Finite(0.0) <==> forall i :: 0 <= i < |cor| ==> cor[i] >= 0.0
    ensures r.Infinite? <==>
      |cor| > 0 && cor[0] < 0.0 && forall i :: 0 <= i < |cor| ==> cor[i] <= 0.0
    ensures r.Finite? ==> r.hz >= 0.0
  {
    match SelectPeak(cor)
    case NoFundamental => Finite(0.0)
    case PeakAt(p) =>
      ChosenLagIsZeroIff(cor);
      LagFrequency(p)
  }

  /** `48000.0 / lag as f32`: infinite for lag 0, otherwise the frequency whose product
      with the lag is the sample rate. */
  function LagFrequency(lag: nat): (f: Frequency)
    ensures f.Infinite? <==> lag == 0
    ensures f.Finite? ==> f.hz > 0.0 && f.hz * lag as real == SampleRate
  {
    if lag == 0 then Infinite else Finite(SampleRate / lag as real)
  }

  /** Reference definition: `f` is the least index holding a negative entry. */
  ghost predicate IsFirstNegative(cor: seq<real>, f: nat)
  {
    f < |cor| && cor[f] < 0.0 && forall i :: 0 <= i < f ==> cor[i] >= 0.0
  }

  /** Reference definition of the chosen lag `p` once the first negative index `f` is known:
      with a positive entry at or after `f`, `p` is the earliest lag holding the maximum of
      `cor[f..]`; without one, `p` is `f` itself. */
  ghost predicate IsChosenLag(cor: seq<real>, f: nat, p: nat)
  {
    && f <= p < |cor|
    && if exists j :: f <= j < |cor| && cor[j] > 0.0 then
         && (forall j :: f <= j < |cor| ==> cor[j] <= cor[p])
         && (forall j :: f <= j < p ==> cor[j] < cor[p])
       else
         p == f
  }

  /** The chosen lag is 0 exactly when entry 0 is negative and nothing is positive. */
  lemma ChosenLagIsZeroIff(cor: seq<real>)
    requires SelectPeak(cor).PeakAt?
    ensures SelectPeak(cor).index == 0 <==>
      |cor| > 0 && cor[0] < 0.0 && forall i :: 0 <= i < |cor| ==> cor[i] <= 0.0
  {
    var f := FirstPeakEnd(cor).value;
    var r := FoldFrom(cor, f, (f, 0.0));
    if r != (f, 0.0) {
      assert f <= r.0 && r.1 > 0.0 && cor[r.0] > 0.0;
    }
  }

  /** The selector and the reference definitions agree: the result is a lag exactly when
      some entry is negative, and that lag is the one the reference definitions describe. */
  lemma SelectPeakMeetsReference(cor: seq<real>)
    ensures SelectPeak(cor).NoFundamental? <==> forall f :: !IsFirstNegative(cor, f)
    ensures SelectPeak(cor).PeakAt? ==>
      var f := FirstPeakEnd(cor).value;
      IsFirstNegative(cor, f) && IsChosenLag(cor, f, SelectPeak(cor).index)
  {
    match FirstPeakEnd(cor)
    case None =>
    case Some(f) =>
      assert IsFirstNegative(cor, f);
      var r := FoldFrom(cor, f, (f, 0.0));
      if exists j :: f <= j < |cor| && cor[j] > 0.0 {
        var j :| f <= j < |cor| && cor[j] > 0.0;
        assert r != (f, 0.0);
      }
  }

  /** There is only one first negative index, and only one lag meets the reference
      definition for it. */
  lemma ReferenceIsUnique(cor: seq<real>, f: nat, g: nat, p: nat, q: nat)
    requires IsFirstNegative(cor, f) && IsFirstNegative(cor, g)
    requires IsChosenLag(cor, f, p) && IsChosenLag(cor, f, q)
    ensures f == g && p == q
  {
  }

  /** Both directions: `SelectPeak` returns `PeakAt(p)` exactly when `p` is the lag the
      reference definitions pick after the first negative entry. */
  lemma SelectPeakCharacterised(cor: seq<real>, p: nat)
    ensures SelectPeak(cor) == PeakAt(p) <==>
      exists f :: IsFirstNegative(cor, f) && IsChosenLag(cor, f, p)
  {
    SelectPeakMeetsReference(cor);
    if f :| IsFirstNegative(cor, f) && IsChosenLag(cor, f, p) {
      assert SelectPeak(cor).PeakAt?;
      ReferenceIsUnique(cor, f, FirstPeakEnd(cor).value, p, SelectPeak(cor).index);
    }
  }

  /** A chosen lag `p` above 0 becomes the frequency `48000 / p`: `LagFrequency(p)`, whose
      product with `p` is the sample rate. */
  lemma GetPeakDividesSampleRate(cor: seq<real>, p: nat)
    requires SelectPeak(cor) == PeakAt(p) && p > 0
    ensures GetPeak(cor) == LagFrequency(p) == Finite(SampleRate / p as real)
  {
  }

  /** When entry 0 is not negative, the first negative index is at least 1, so the chosen
      lag is too and the division is by a non-zero lag. */
  lemma NonNegativeLeadIsFinite(cor: seq<real>)
    requires |cor| > 0 && cor[0] >= 0.0
    ensures SelectPeak(cor).PeakAt? ==> SelectPeak(cor).index >= 1
    ensures GetPeak(cor).Finite?
  {
    if SelectPeak(cor).PeakAt? {
      SelectPeakMeetsReference(cor);
    }
  }
}
