# Pitch estimation core of rust-audio-poc, in Dafny

The program reads frames of 256 microphone samples, computes the unnormalised
autocorrelation of each frame, picks the lag of the strongest autocorrelation
peak after the first negative entry, turns that lag into a frequency at a fixed
48000 Hz, and prints the nearest equal-tempered note as a pitch name and octave.

This project models the three pure steps of that pipeline and proves what each
one promises:

- `correlator.dfy` (module `Correlator`): `correlation`. Entry `k` of the result
  is the sum over `i < n - k` of `signal[i] * signal[i + k]`. The model follows
  the source's `take` / `skip` / `zip` / `map` / `sum` chain. It is connected to
  an index-sum reference definition (`LagSum`).
- `peak_selector.dfy` (module `PeakSelector`): `get_peak`. This covers the
  first-negative search, the fold with strict `>` from the accumulator
  `(first_peak_end, 0.0)`, and the division of 48000 by the chosen lag. The
  selected lag is matched against an independent reference definition, in
  both directions.
- `estimator.dfy` (module `Estimator`): the composition `get_peak(correlation(frame))`
  that the analysis loop performs, and the proof that it never divides by zero.
- `note_mapper.dfy` (module `NoteMapper`): the integer part of `hz_to_pitch`,
  from the rounded MIDI number on. It covers the pitch-class index (including
  the `as usize` cast), the octave (Rust's truncating `/`) and the label
  padded to two characters. A decoder reads the label back.
- `decimal.dfy` (module `Decimal`): the decimal text of the octave, with its
  parser.
- `wrappers.dfy` (module `Wrappers`): `Option`.

Samples are exact `real`s: they abstract the program's `f32`, and float rounding
in the products and sums is not modelled.

The model follows the code as written. Behaviour worth knowing:

- The sample rate is the constant 48000, not the rate the device reports.
- A winning lag of 0 is not turned into "no pitch". `48000.0 / 0.0` is `+inf`
  in `f32`, and the model returns `Infinite`. This happens exactly when entry 0
  is negative and no entry is positive (`GetPeak`'s contract). It cannot happen
  on a real autocorrelation (`Estimator.NeverDividesByZero`).
- The fold's accumulator starts at the value `0.0`, not at the first candidate.
  So when nothing after the first negative entry is positive, the chosen lag is
  the first negative index itself, not the largest of the negative entries.
- The sharp and flat signs in the program's name literals (src/main.rs:88) are
  each the three characters U+201A U+00F4 U+00D8 (sharp) or U+201A U+00F4
  U+2260 (flat): the UTF-8 bytes of the musical signs read as Mac Roman text.
  The model keeps these literals as written. So every accidental name is four
  characters long, is wider than the padding width and gets no padding; MIDI 61
  is labelled with the four-character C name followed by `4`.
- For a negative rounded MIDI number, the pitch class is not the non-negative
  remainder. The code computes `(r as usize) % 12`, where the cast wraps modulo
  2^64, and the octave uses truncating division instead of floor division. For
  example, MIDI -1 is labelled E-flat in octave -1 rather than B in octave -2
  (`NoteMapper.NegativePitchMislabelled`). The program only reaches negative
  numbers through the float path of `hz_to_midi_number`, which is not modelled
  (see below).

## Model

| member | source | states |
|---|---|---|
| Correlator.ZipWith | src/main.rs:109-110 | zipping two runs and mapping a closure over the pairs gives one result per pair: its length is the shorter run's, and entry `i` is the closure applied to `a[i]` and `b[i]` |
| Correlator.PairProducts | src/main.rs:106-110 | zipping two runs and multiplying gives one product per pair: its length is the shorter run's, and entry `i` is `a[i] * b[i]` |
| Correlator.Correlation | src/main.rs:103-114 | the autocorrelation has exactly one entry per sample of the frame |
| Correlator.ZippedRunsAlign | src/main.rs:106-110 | `take(n - k)` and `skip(k)` each give `n - k` samples, so the zip pairs `signal[i]` with `signal[i + k]` for every `i < n - k` |
| Correlator.PrefixSumIsLagSum | src/main.rs:106-111 | summing the first `m` zipped products gives the index sum over `i < m` of `signal[i] * signal[i + k]` |
| Correlator.CorrelationEntry | src/main.rs:103-114 | entry `k` equals the sum over `i < n - k` of `signal[i] * signal[i + k]` |
| Correlator.EnergyNonNegative | src/main.rs:104-111 | entry 0 is the sum of squares of the samples, so it is never negative |
| Correlator.LagZeroDominates | src/main.rs:103-114 | entry 0 bounds every entry in magnitude: `-cor[0] <= cor[k] <= cor[0]` for every lag `k` |
| Correlator.LagSumDominated | src/main.rs:106-111 | the lag-`k` index sum lies between minus and plus the energy of the whole frame |
| Correlator.SilenceCorrelatesToZero | src/main.rs:104-111 | an all-zero frame yields an all-zero autocorrelation of the same length |
| Correlator.ConstantSignal | src/main.rs:103-114 | a frame of `n` equal samples `c` has entry `k` equal to `(n - k) * c * c`, so entry 0 is `n * c * c` |
| Correlator.ConstantSignalNonNegative | src/main.rs:103-114 | every entry of a constant frame's autocorrelation is non-negative |
| Correlator.ConstantSignalDecreasing | src/main.rs:103-114 | for a non-zero constant frame the entries strictly decrease with the lag and stay positive |
| PeakSelector.FirstNegativeFrom | src/main.rs:54-62 | the search returns the least index at or after the start with a negative entry, and returns none exactly when every entry from the start on is non-negative |
| PeakSelector.FoldFrom | src/main.rs:64-74 | the fold returns its accumulator unchanged exactly when no later entry beats it; otherwise it returns the earliest lag holding the maximum of the suffix, and that maximum exceeds the accumulator |
| PeakSelector.SelectPeak | src/main.rs:53-78 | there is no fundamental exactly when no entry is negative; otherwise the chosen lag is an index of the sequence |
| PeakSelector.GetPeak | src/main.rs:53-80 | the result is the sentinel 0 exactly when no entry is negative; it is `+inf` exactly when entry 0 is negative and no entry is positive; otherwise it is a non-negative finite frequency |
| PeakSelector.ChosenLagIsZeroIff | src/main.rs:64-79 | the chosen lag is 0 exactly when entry 0 is negative and no entry is positive |
| PeakSelector.SelectPeakMeetsReference | src/main.rs:54-78 | the first-negative index is the least negative index. The chosen lag lies in `[first_peak_end, n)`. If some entry there is positive, the chosen lag is the earliest maximum; otherwise it is `first_peak_end` |
| PeakSelector.SelectPeakCharacterised | src/main.rs:54-78 | `SelectPeak` returns lag `p` if and only if `p` is the lag the reference definition picks after the first negative entry |
| PeakSelector.LagFrequency | src/main.rs:79 | dividing 48000 by the lag gives `+inf` exactly for lag 0; otherwise a positive frequency whose product with the lag is 48000 |
| PeakSelector.GetPeakDividesSampleRate | src/main.rs:79 | a chosen lag `p > 0` gives the frequency `48000 / p`, whatever the device's rate |
| PeakSelector.NonNegativeLeadIsFinite | src/main.rs:54-79 | when entry 0 is not negative, the chosen lag is at least 1 and the result is finite |
| Estimator.NeverDividesByZero | src/main.rs:45-46 | on the autocorrelation of any frame the frequency is finite: `get_peak(correlation(frame))` never divides by zero |
| Estimator.ChosenLagPositive | src/main.rs:45-46 | on the autocorrelation of any frame, the chosen lag is at least 1 |
| Estimator.SilentFrameHasNoPitch | src/main.rs:54-61 | a silent frame gives the "no fundamental" sentinel 0 |
| Estimator.ConstantFrameHasNoPitch | src/main.rs:54-61 | a constant frame gives the "no fundamental" sentinel 0 |
| NoteMapper.AsUsize | src/main.rs:94 | the cast gives the residue of the `i32` modulo 2^64 |
| NoteMapper.TruncDiv | src/main.rs:96 | Rust's `/` leaves a remainder with the sign of the dividend and smaller than the divisor in magnitude |
| NoteMapper.NameIndex | src/main.rs:94-95 | the pitch-class index is always a valid index into the twelve names |
| NoteMapper.PadRight | src/main.rs:100 | the padded name keeps the name as its prefix and is filled with spaces up to the width |
| NoteMapper.PitchDecomposition | src/main.rs:94-96 | for `r >= 0`: the index is `r % 12`, the octave is `r / 12 - 1`, and `12 * (octave + 1) + index == r` |
| NoteMapper.OctaveShift | src/main.rs:94-96 | raising `r >= 0` by 12 keeps the pitch name and raises the octave by 1 |
| NoteMapper.LabelLayout | src/main.rs:87-100 | a name is one or four characters; a one-character name is followed by one space and a four-character name by nothing, and the octave's decimal text follows |
| NoteMapper.LabelRoundTrip | src/main.rs:94-100 | the label of any `r >= 0` reads back as `r`, so distinct numbers get distinct labels |
| NoteMapper.ConcertPitch | src/main.rs:87-100 | MIDI 69 is A in octave 4, labelled "A 4" |
| NoteMapper.MiddleC | src/main.rs:87-100 | MIDI 60 is C in octave 4, labelled "C 4" |
| NoteMapper.AccidentalNameUnpadded | src/main.rs:87-100 | MIDI 61 is the C-sharp name as the program spells it (four characters), in octave 4, and it is not padded |
| NoteMapper.NegativePitchMislabelled | src/main.rs:94-96 | MIDI -1 gets index 3 (E-flat) and octave -1, not the non-negative remainder 11 and the floor octave -2; its label reads back as 3 |
| Decimal.IntRoundTrip | src/main.rs:100 | the octave's decimal text reads back as the same integer |

## Left out

- `main` (src/main.rs:4-51) is left out. It holds PortAudio device and stream
  setup, the non-blocking capture callback, the `mpsc` channel, the busy-poll
  loop and `println!`. This is foreign-library I/O and concurrency. Only the
  per-frame composition at src/main.rs:45-46 is modelled (`Estimator`).
- `hz_to_midi_number` (src/main.rs:82-84) and the `round() as i32` step
  (src/main.rs:92) are left out: they are a transcendental `log2` plus float
  rounding and a saturating cast. The note mapper starts from the integer
  `rounded_pitch`, which is any `i32`.
- The path where `main` passes the `0` sentinel into `hz_to_pitch`
  (src/main.rs:46-47) is left out. There, `log2(0)` is `-inf`, and the cast
  saturates it to `i32::MIN`. This is float behaviour; the integer part for
  `i32::MIN` is covered by `NameIndex` and `Octave` like any other `i32`.
- `f32` arithmetic is left out. Samples, products, sums and the final division
  are exact reals, so rounding, overflow to infinity and NaN are not modelled.
  The one float effect modelled is the `+inf` of a division by a zero lag.
- `peak_index as f32` is left out: the lag is converted exactly.
