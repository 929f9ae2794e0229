# Barbell lift analysis — a verified model

This project models the analysis pipeline of a barbell-tracking tool. The pipeline
turns a marker's vertical position trace (metres, with timestamps in seconds) into
four kinds of result:

- **Smoothing** (`smoothing.dfy`): a moving average of window `w`, applied as a
  "valid" convolution with the uniform kernel `1/w` (no edge padding). The smoothed
  positions are paired with the timestamps re-sliced from index `w - 1`, so every
  smoothed sample carries the timestamp of the last sample of its window.
- **Repetition segmentation** (`segmentation.dfy`): the peak indices and valley
  indices come from a peak detector. For each peak, the loop selects the valleys
  strictly before it and strictly after it. When both selections are non-empty, it
  emits `{start, peak, end}`. These are the timestamps of the last valley before the
  peak, the peak itself and the first valley after it. Peaks without a valley on
  both sides are dropped, and a valley may be shared by several repetitions.
- **Derivatives** (`derivatives.dfy`): velocity is the numerical gradient of position
  against time, and acceleration is the gradient of that velocity. The gradient uses
  one-sided differences at the two ends. In the interior it uses the second-order
  central formula for unevenly spaced samples, with weights
  `-d2/(d1(d1+d2))`, `(d2-d1)/(d1 d2)` and `d1/(d2(d1+d2))`.
- **Work and power** (`power.dfy`): `h = max - min` and `work = m·g·h` with
  `g = 9.81`. The duration is `last - first`, or `1` when the two timestamps are
  equal. Then `avgPower = work / duration` and `instPower[i] = m·(a[i] + g)·v[i]`.

`series.dfy` holds the shared helpers: sums, maximum, minimum and strictly
increasing time axes. Floating-point numbers are modelled as Dafny `real`.

The peak detector is an external library. It is modelled by its outputs: two
sequences of indices into the trace. `Segmentation.LocalMaxima` and
`Segmentation.LocalMinima` state a necessary condition that any of its outputs
meets: each reported index is an interior sample that is no lower (for peaks) or no
higher (for valleys) than its two neighbours.

### Behaviour worth knowing (the model follows the code)

- One might expect two repetitions from a trace of two lifts that starts and ends
  at the bottom. The trace is positions `[0, .1, .2, .1, 0, .1, .2, .1, 0]`,
  timestamps `0..8` and window 1. The code gives none: the detector never reports
  the first or last sample, so the only valley is index 4. Peak 2 then has no valley
  before it, and peak 6 has none after it. `Segmentation.EndToEndScenarioYieldsNothing`
  proves this for every detector output that meets the local-extremum condition.
- The smoothing filter has no check that the trace is at least as long as the
  window, so the model states `1 <= w <= |data|` as a precondition.
- Gravity is the module constant `g = 9.81` (analysis.py:5), not a parameter.
  The model keeps it as the constant `Power.G`, which every work and power formula uses.

## Model

| member | source | states |
|---|---|---|
| `Series.Max` | analysis.py:71 | the result is one of the samples and no sample exceeds it |
| `Series.Min` | analysis.py:71 | the result is one of the samples and no sample is below it |
| `Smoothing.ValidConvolution` | analysis.py:12 | "valid" convolution yields exactly N − K + 1 outputs |
| `Smoothing.MovingAverage` | analysis.py:7-13 | the filter is "valid" convolution with the uniform kernel 1/w and yields N − w + 1 samples |
| `Smoothing.MovingAverageIsWindowMean` | analysis.py:7-13 | the filter yields N − w + 1 samples, and sample i is the mean of data[i..i+w−1] |
| `Smoothing.MovingAverageOfConstant` | analysis.py:12 | a constant signal is a fixed point of the filter |
| `Smoothing.MovingAverageWithinBounds` | analysis.py:12 | smoothed samples stay within any bounds of the input |
| `Smoothing.MovingAverageSlide` | analysis.py:12 | consecutive outputs differ by (entering − leaving sample) / w |
| `Smoothing.SmoothTrace` | main.py:27-29 | smoothed positions and re-sliced timestamps have equal length N − w + 1; sample i carries timestamp i + w − 1, the trailing sample of its window; strictly increasing time is preserved |
| `Segmentation.LocalMaxima` | analysis.py:32 | the peak detector's indices lie in the trace and never name its first or last sample |
| `Segmentation.LocalMinima` | analysis.py:34 | the valley detector (peaks of the negated trace) reports indices in the trace, never the first or last sample |
| `Segmentation.BelowSelects` | analysis.py:40 | the mask keeps exactly the valleys left of the peak, in sorted order |
| `Segmentation.AboveSelects` | analysis.py:42 | the mask keeps exactly the valleys right of the peak, in sorted order |
| `Segmentation.RepetitionAt` | analysis.py:39-47 | one peak contributes at most one repetition |
| `Segmentation.Repetitions` | analysis.py:36-49 | the list the loop builds, one contribution per peak in peak order; its properties are the lemmas below |
| `Segmentation.RepetitionAtBracket` | analysis.py:39-47 | a peak yields a repetition iff valleys lie on both sides; the repetition runs from the nearest valley on the left to the nearest on the right |
| `Segmentation.DetectRepetitions` | analysis.py:36-49 | the loop builds exactly the per-peak contributions in peak order, and emits no more repetitions than peaks |
| `Segmentation.RepetitionsCount` | analysis.py:36-49 | there are at most as many repetitions as peaks |
| `Segmentation.RepetitionsSound` | analysis.py:38-47 | every repetition is delimited by the nearest valleys around one of the peaks |
| `Segmentation.RepetitionsComplete` | analysis.py:38-47 | every peak with valleys on both sides is reported, with its nearest valleys |
| `Segmentation.RepetitionsOrdered` | analysis.py:40-46 | start < peak < end for every repetition when time strictly increases |
| `Segmentation.RepetitionsFromTimestamps` | analysis.py:44-46 | start, peak and end are all taken from the timestamp sequence |
| `Segmentation.UnbracketedPeakDropped` | analysis.py:43 | a peak with no valley on one side contributes no repetition |
| `Segmentation.NoBracketNoRepetitions` | analysis.py:43-47 | when no peak has valleys on both sides, the result is empty |
| `Segmentation.RepetitionPeaksFromPeaks` | analysis.py:45 | every repetition's peak time is the timestamp of a detected peak |
| `Segmentation.RepetitionsInPeakOrder` | analysis.py:38-47 | repetitions appear in peak order: peak times strictly increase |
| `Segmentation.SharedValleys` | analysis.py:40-46 | with no valley between two peaks, both repetitions share start and end (no deduplication) |
| `Segmentation.EndToEndScenarioYieldsNothing` | analysis.py:32-47 | the two-lift example trace yields no repetition because the detector reports only interior extrema |
| `Derivatives.GradientAt` | analysis.py:58 | the gradient at one sample: one-sided difference at either end, three-point non-uniform formula inside; `GradientOfAffineAt` states what it computes |
| `Derivatives.GradientOfAffineAt` | analysis.py:58 | at every single sample, ends included, the gradient of y = k·t + c is exactly k |
| `Derivatives.Gradient` | analysis.py:58 | the gradient has one value per sample |
| `Derivatives.ComputeDerivatives` | analysis.py:51-60 | velocity and acceleration have the length of the positions |
| `Derivatives.InteriorWeights` | analysis.py:58 | the interior weights sum to 0, have first moment 1 and second moment 0 |
| `Derivatives.GradientOfAffine` | analysis.py:58 | on y = k·t + c the gradient is exactly k at every sample, ends included |
| `Derivatives.GradientOfQuadraticInterior` | analysis.py:58 | on a parabola the interior gradient is the exact derivative 2q·t + k |
| `Derivatives.GradientUniformSpacing` | analysis.py:58 | on an even time step h, the interior formula is (y[i+1] − y[i−1]) / 2h |
| `Derivatives.DerivativesOfUniformMotion` | analysis.py:58-59 | for uniform motion, velocity is the constant speed; acceleration, the gradient of velocity, is zero |
| `Power.Displacement` | analysis.py:71 | the displacement is non-negative |
| `Power.DisplacementIsLargestRise` | analysis.py:71 | the displacement is the largest difference between two samples, and it is attained |
| `Power.TotalTime` | analysis.py:74 | the duration is never zero, and is positive when the last timestamp is not before the first |
| `Power.ComputePowerOutput` | analysis.py:62-77 | the work of lifting the mass through the displacement against g = 9.81, and its average: avgPower × duration = work; work ≥ 0 for mass ≥ 0; avgPower ≥ 0 when time does not run backward |
| `Power.WorkOfKnownAmplitude` | analysis.py:71-73 | a trace spanning exactly [lo, hi] gives work = m·g·(hi − lo) |
| `Power.ZeroDurationFallback` | analysis.py:74-75 | equal first and last timestamps give a duration of 1, so avgPower = work |
| `Power.PowerOutputScalesWithMass` | analysis.py:73-75 | scaling the mass scales work and average power by the same factor |
| `Power.ComputeInstantaneousPower` | analysis.py:79-93 | one power value per velocity sample, mass·(a[i] + g)·v[i] with g = 9.81 |
| `Power.InstantaneousPowerScalesWithMass` | analysis.py:90-92 | scaling the mass scales every instantaneous power value by the same factor |
| `Power.InstantaneousPowerSign` | analysis.py:90-92 | while the net force is upward, power takes the sign of velocity (zero exactly at rest) |

## Left out

- Peak detection internals: plateau handling and the prominence computation and threshold. The detector's outputs are inputs to the model. Only the interior local-extremum condition is stated, in `LocalMaxima` and `LocalMinima`.
- numpy's behaviour outside the preconditions: the argument swap when the window exceeds the trace, the error for a zero window, the error when the gradient gets fewer than two samples, the error for `max`/`min` of an empty array, and broadcasting of a length-1 array in the element-wise power formula.
- Floating-point rounding, and the infinities or NaNs that equal timestamps would produce in the gradient. All arithmetic is exact over the reals, and the gradient requires strictly increasing timestamps.
- Whether the input timestamps are strictly increasing is not checked, as in the code. The ordering properties carry it as a hypothesis.
- The position argument and prominence parameter of the repetition detector: they only feed the peak detector, which is not modelled.
- Video capture, region-of-interest selection and tracking (`video_processor.py`): device and library I/O.
- The command-line driver (`main.py`): prompts, printing, the lever-arm sum, and the maximum of the instantaneous power printed as a report. Only its timestamp re-slicing (main.py:27-29) is modelled, as `SmoothTrace`.
