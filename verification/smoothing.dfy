/**
 * Moving-average smoothing of the position trace: a uniform kernel applied by
 * "valid" convolution (no edge padding), and the re-alignment of the timestamps
 * to the trailing sample of every window.
 */
module Smoothing {
  import opened Series

  /** A motion trace: positions (metres) and the timestamps (seconds) they were sampled at. */
  datatype Trace = Trace(positions: seq<real>, timestamps: seq<real>)

  /**
   * One output sample of a convolution: the window multiplied element by element
   * with the REVERSED kernel, so window[j] meets kernel[|kernel| - 1 - j].
   */
  function FlippedDot(window: seq<real>, kernel: seq<real>): real
    requires |window| == |kernel|
  {
    if window == [] then 0.0
    else window[0] * kernel[|kernel| - 1] + FlippedDot(window[1..], kernel[..|kernel| - 1])
  }

  /** Convolution in "valid" mode: one output per position where the kernel fits entirely. */
  function ValidConvolution(data: seq<real>, kernel: seq<real>): (r: seq<real>)
    requires 1 <= |kernel| <= |data|
    ensures |r| == |data| - |kernel| + 1
  {
    seq(|data| - |kernel| + 1, i requires 0 <= i <= |data| - |kernel| => FlippedDot(data[i..i + |kernel|], kernel))
  }

  /** The uniform averaging kernel: w weights of 1/w each. */
  function UniformKernel(w: nat): (k: seq<real>)
    requires w >= 1
    ensures |k| == w
  {
    seq(w, _ => 1.0 / w as real)
  }

  /** The moving-average filter: convolve the data with the uniform kernel of length w. */
  function MovingAverage(data: seq<real>, w: nat): (r: seq<real>)
    requires 1 <= w <= |data|
    ensures |r| == |data| - w + 1
  {
    ValidConvolution(data, UniformKernel(w))
  }

  /** A flipped dot product with a constant kernel is the window's sum times that constant. */
  lemma {:induction false} FlippedDotConstantKernel(window: seq<real>, kernel: seq<real>, c: real)
    requires |window| == |kernel|
    requires forall j :: 0 <= j < |kernel| ==> kernel[j] == c
    ensures FlippedDot(window, kernel) == Sum(window) * c
  {
    if window != [] {
      FlippedDotConstantKernel(window[1..], kernel[..|kernel| - 1], c);
    }
  }

  /**
   * Output sample i of the filter is the arithmetic mean of data[i .. i+w-1],
   * and there are exactly |data| - w + 1 of them.
   */
  lemma MovingAverageIsWindowMean(data: seq<real>, w: nat)
    requires 1 <= w <= |data|
    ensures |MovingAverage(data, w)| == |data| - w + 1
    ensures forall i :: 0 <= i <= |data| - w ==> MovingAverage(data, w)[i] == Sum(data[i..i + w]) / w as real
  {
    forall i | 0 <= i <= |data| - w
      ensures MovingAverage(data, w)[i] == Sum(data[i..i + w]) / w as real
    {
      FlippedDotConstantKernel(data[i..i + w], UniformKernel(w), 1.0 / w as real);
    }
  }

  /** A flat signal is a fixed point of the filter: every output equals the constant. */
  lemma MovingAverageOfConstant(data: seq<real>, w: nat, c: real)
    requires 1 <= w <= |data|
    requires forall i :: 0 <= i < |data| ==> data[i] == c
    ensures forall i :: 0 <= i < |MovingAverage(data, w)| ==> MovingAverage(data, w)[i] == c
  {
    MovingAverageIsWindowMean(data, w);
    forall i | 0 <= i <= |data| - w
      ensures MovingAverage(data, w)[i] == c
    {
      SumConstant(data[i..i + w], c);
    }
  }

  /** Smoothing never leaves the range of the input: outputs stay within any bounds of the data. */
  lemma MovingAverageWithinBounds(data: seq<real>, w: nat, lo: real, hi: real)
    requires 1 <= w <= |data|
    requires forall i :: 0 <= i < |data| ==> lo <= data[i] <= hi
    ensures forall i :: 0 <= i < |MovingAverage(data, w)| ==> lo <= MovingAverage(data, w)[i] <= hi
  {
    MovingAverageIsWindowMean(data, w);
    forall i | 0 <= i <= |data| - w
      ensures lo <= MovingAverage(data, w)[i] <= hi
    {
      var window := data[i..i + w];
      SumBounds(window, lo, hi);
      var n := w as real;
      assert n * lo / n == lo && n * hi / n == hi;
    }
  }

  /**
   * Sliding the window one step: the next output is the previous one plus the
   * entering sample minus the leaving sample, divided by w.
   */
  lemma MovingAverageSlide(data: seq<real>, w: nat, i: nat)
    requires 1 <= w <= |data|
    requires i + 1 <= |data| - w
    ensures MovingAverage(data, w)[i + 1] == MovingAverage(data, w)[i] + (data[i + w] - data[i]) / w as real
  {
    MovingAverageIsWindowMean(data, w);
    assert data[i..i + w] == [data[i]] + data[i + 1..i + w];
    assert data[i + 1..i + 1 + w] == data[i + 1..i + w] + [data[i + w]];
    SumSnoc(data[i + 1..i + w], data[i + w]);
  }

  /**
   * The smoothed trace: filtered positions paired with the timestamps re-sliced
   * from index w - 1, so that every smoothed sample carries the timestamp of the
   * trailing sample of its window.
   */
  function SmoothTrace(trace: Trace, w: nat): (r: Trace)
    requires 1 <= w <= |trace.positions|
    requires |trace.timestamps| == |trace.positions|
    ensures |r.positions| == |r.timestamps| == |trace.positions| - w + 1
    ensures forall i :: 0 <= i < |r.positions| ==>
      r.timestamps[i] == trace.timestamps[i + w - 1] &&
      r.positions[i] == Sum(trace.positions[i..i + w]) / w as real
    ensures StrictlyIncreasing(trace.timestamps) ==> StrictlyIncreasing(r.timestamps)
  {
    MovingAverageIsWindowMean(trace.positions, w);
    Trace(MovingAverage(trace.positions, w), trace.timestamps[w - 1..])
  }
}
