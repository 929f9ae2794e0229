/**
 * Numerical differentiation of the smoothed trace against its (non-uniform) time
 * axis: velocity is the gradient of position, acceleration the gradient of velocity.
 * The gradient uses one-sided first differences at the two ends and the
 * second-order central formula for unevenly spaced samples in the interior.
 */
module Derivatives {
  import opened Series

  /** Velocity and acceleration, sample by sample, on the same time axis as the positions. */
  datatype Kinematics = Kinematics(velocity: seq<real>, acceleration: seq<real>)

  /** Weight of the previous sample, for gaps d1 (behind) and d2 (ahead). */
  function WeightPrev(d1: real, d2: real): real
    requires d1 > 0.0 && d2 > 0.0
  {
    -d2 / (d1 * (d1 + d2))
  }

  /** Weight of the sample itself. */
  function WeightHere(d1: real, d2: real): real
    requires d1 > 0.0 && d2 > 0.0
  {
    (d2 - d1) / (d1 * d2)
  }

  /** Weight of the next sample. */
  function WeightNext(d1: real, d2: real): real
    requires d1 > 0.0 && d2 > 0.0
  {
    d1 / (d2 * (d1 + d2))
  }

  /** The gradient at sample i of y against the time axis t. */
  function GradientAt(y: seq<real>, t: seq<real>, i: nat): real
    requires 2 <= |y| == |t| && StrictlyIncreasing(t) && i < |y|
  {
    if i == 0 then (y[1] - y[0]) / (t[1] - t[0])
    else if i == |y| - 1 then (y[i] - y[i - 1]) / (t[i] - t[i - 1])
    else
      var d1 := t[i] - t[i - 1];
      var d2 := t[i + 1] - t[i];
      WeightPrev(d1, d2) * y[i - 1] + WeightHere(d1, d2) * y[i] + WeightNext(d1, d2) * y[i + 1]
  }

  /** The numerical gradient of y against t: one value per sample. */
  function Gradient(y: seq<real>, t: seq<real>): (g: seq<real>)
    requires 2 <= |y| == |t| && StrictlyIncreasing(t)
    ensures |g| == |y|
  {
    seq(|y|, i requires 0 <= i < |y| => GradientAt(y, t, i))
  }

  /** Velocity as the gradient of position; acceleration as the gradient of that velocity. */
  function ComputeDerivatives(positions: seq<real>, timestamps: seq<real>): (k: Kinematics)
    requires 2 <= |positions| == |timestamps| && StrictlyIncreasing(timestamps)
    ensures |k.velocity| == |k.acceleration| == |positions|
  {
    var velocity := Gradient(positions, timestamps);
    Kinematics(velocity, Gradient(velocity, timestamps))
  }

  /** The interior weights annihilate constants, differentiate t exactly and cancel t*t's curvature. */
  lemma InteriorWeights(d1: real, d2: real)
    requires d1 > 0.0 && d2 > 0.0
    ensures WeightPrev(d1, d2) + WeightHere(d1, d2) + WeightNext(d1, d2) == 0.0
    ensures WeightNext(d1, d2) * d2 - WeightPrev(d1, d2) * d1 == 1.0
    ensures WeightPrev(d1, d2) * d1 * d1 + WeightNext(d1, d2) * d2 * d2 == 0.0
  {
  }

  /** The weighted combination of three samples of a line with slope k is k. */
  lemma AffineCombination(a: real, b: real, w: real, y0: real, y1: real, y2: real, k: real, d1: real, d2: real)
    requires a + b + w == 0.0 && w * d2 - a * d1 == 1.0
    requires y0 == y1 - k * d1 && y2 == y1 + k * d2
    ensures a * y0 + b * y1 + w * y2 == k
  {
    calc {
      a * y0 + b * y1 + w * y2;
      a * (y1 - k * d1) + b * y1 + w * (y1 + k * d2);
      (a + b + w) * y1 + k * (w * d2 - a * d1);
      k;
    }
  }

  /** The weighted combination of three samples of a parabola is its slope at the middle one. */
  lemma QuadraticCombination(a: real, b: real, w: real, y0: real, y1: real, y2: real,
                             slope: real, q: real, d1: real, d2: real)
    requires a + b + w == 0.0 && w * d2 - a * d1 == 1.0 && a * d1 * d1 + w * d2 * d2 == 0.0
    requires y0 == y1 - slope * d1 + q * d1 * d1 && y2 == y1 + slope * d2 + q * d2 * d2
    ensures a * y0 + b * y1 + w * y2 == slope
  {
    calc {
      a * y0 + b * y1 + w * y2;
      a * (y1 - slope * d1 + q * d1 * d1) + b * y1 + w * (y1 + slope * d2 + q * d2 * d2);
      (a + b + w) * y1 + slope * (w * d2 - a * d1) + q * (a * d1 * d1 + w * d2 * d2);
      slope;
    }
  }

  /** Taylor expansion of a parabola around x, which is exact. */
  lemma QuadraticShift(q: real, k: real, c: real, x: real, d: real)
    ensures q * (x + d) * (x + d) + k * (x + d) + c == (q * x * x + k * x + c) + (2.0 * q * x + k) * d + q * d * d
  {
  }

  /** A difference quotient of a line recovers its slope. */
  lemma SlopeOfLine(dy: real, dt: real, k: real)
    requires dt != 0.0 && dy == k * dt
    ensures dy / dt == k
  {
  }

  /** Two samples of a line differ by the slope times their distance in time. */
  lemma LineDifference(k: real, c: real, x0: real, x1: real)
    ensures (k * x1 + c) - (k * x0 + c) == k * (x1 - x0)
  {
  }

  /** The gradient of an affine signal y = k*t + c at sample i is k. */
  lemma GradientOfAffineAt(y: seq<real>, t: seq<real>, k: real, c: real, i: nat)
    requires 2 <= |y| == |t| && StrictlyIncreasing(t) && i < |y|
    requires forall j :: 0 <= j < |y| ==> y[j] == k * t[j] + c
    ensures GradientAt(y, t, i) == k
  {
    if i == 0 {
      AffineTwoPoint(y[0], y[1], t[0], t[1], k, c);
    } else if i == |y| - 1 {
      AffineTwoPoint(y[i - 1], y[i], t[i - 1], t[i], k, c);
    } else {
      AffineThreePoint(y[i - 1], y[i], y[i + 1], t[i - 1], t[i], t[i + 1], k, c);
    }
  }

  /** The one-sided difference quotient recovers the slope of a line through its samples. */
  lemma AffineTwoPoint(y0: real, y1: real, t0: real, t1: real, k: real, c: real)
    requires t0 < t1
    requires y0 == k * t0 + c && y1 == k * t1 + c
    ensures (y1 - y0) / (t1 - t0) == k
  {
    LineDifference(k, c, t0, t1);
    SlopeOfLine(y1 - y0, t1 - t0, k);
  }

  /** The three-point interior formula recovers the slope of a line through its samples. */
  lemma AffineThreePoint(y0: real, y1: real, y2: real, t0: real, t1: real, t2: real, k: real, c: real)
    requires t0 < t1 < t2
    requires y0 == k * t0 + c && y1 == k * t1 + c && y2 == k * t2 + c
    ensures WeightPrev(t1 - t0, t2 - t1) * y0 + WeightHere(t1 - t0, t2 - t1) * y1 + WeightNext(t1 - t0, t2 - t1) * y2 == k
  {
    var d1, d2 := t1 - t0, t2 - t1;
    InteriorWeights(d1, d2);
    LineDifference(k, c, t0, t1);
    LineDifference(k, c, t1, t2);
    AffineCombination(WeightPrev(d1, d2), WeightHere(d1, d2), WeightNext(d1, d2), y0, y1, y2, k, d1, d2);
  }

  /** On an affine signal y = k*t + c the gradient is exactly k at every sample. */
  lemma GradientOfAffine(y: seq<real>, t: seq<real>, k: real, c: real)
    requires 2 <= |y| == |t| && StrictlyIncreasing(t)
    requires forall i :: 0 <= i < |y| ==> y[i] == k * t[i] + c
    ensures forall i :: 0 <= i < |y| ==> Gradient(y, t)[i] == k
  {
    forall i | 0 <= i < |y|
      ensures Gradient(y, t)[i] == k
    {
      GradientOfAffineAt(y, t, k, c, i);
    }
  }

  /**
   * In the interior the gradient is exact on quadratics: for y = q*t*t + k*t + c the
   * value at every inner sample is the true derivative 2*q*t + k.
   */
  lemma GradientOfQuadraticInterior(y: seq<real>, t: seq<real>, q: real, k: real, c: real)
    requires 2 <= |y| == |t| && StrictlyIncreasing(t)
    requires forall i :: 0 <= i < |y| ==> y[i] == q * t[i] * t[i] + k * t[i] + c
    ensures forall i :: 0 < i < |y| - 1 ==> Gradient(y, t)[i] == 2.0 * q * t[i] + k
  {
    forall i | 0 < i < |y| - 1
      ensures Gradient(y, t)[i] == 2.0 * q * t[i] + k
    {
      var d1 := t[i] - t[i - 1];
      var d2 := t[i + 1] - t[i];
      InteriorWeights(d1, d2);
      var x := t[i];
      var slope := 2.0 * q * x + k;
      QuadraticShift(q, k, c, x, -d1);
      QuadraticShift(q, k, c, x, d2);
      assert t[i - 1] == x + -d1 && t[i + 1] == x + d2;
      QuadraticCombination(WeightPrev(d1, d2), WeightHere(d1, d2), WeightNext(d1, d2),
        y[i - 1], y[i], y[i + 1], slope, q, d1, d2);
    }
  }

  /**
   * On an evenly spaced time axis (step h) the interior formula reduces to the
   * plain central difference (y[i+1] - y[i-1]) / (2h).
   */
  lemma GradientUniformSpacing(y: seq<real>, t: seq<real>, h: real)
    requires 2 <= |y| == |t| && StrictlyIncreasing(t)
    requires h > 0.0 && forall i :: 0 < i < |t| ==> t[i] - t[i - 1] == h
    ensures forall i :: 0 < i < |y| - 1 ==> Gradient(y, t)[i] == (y[i + 1] - y[i - 1]) / (2.0 * h)
  {
    forall i | 0 < i < |y| - 1
      ensures Gradient(y, t)[i] == (y[i + 1] - y[i - 1]) / (2.0 * h)
    {
      assert t[i] - t[i - 1] == h && t[i + 1] - t[i] == h;
      assert h > 0.0;
      assert WeightPrev(h, h) == -1.0 / (2.0 * h);
      assert WeightHere(h, h) == 0.0;
      assert WeightNext(h, h) == 1.0 / (2.0 * h);
    }
  }

  /**
   * Uniform motion (position affine in time with slope v0): the velocity is v0 at
   * every sample and the acceleration, the gradient of that velocity, is zero.
   */
  lemma DerivativesOfUniformMotion(positions: seq<real>, timestamps: seq<real>, v0: real, p0: real)
    requires 2 <= |positions| == |timestamps| && StrictlyIncreasing(timestamps)
    requires forall i :: 0 <= i < |positions| ==> positions[i] == v0 * timestamps[i] + p0
    ensures forall i :: 0 <= i < |positions| ==>
      ComputeDerivatives(positions, timestamps).velocity[i] == v0 &&
      ComputeDerivatives(positions, timestamps).acceleration[i] == 0.0
  {
    var velocity := Gradient(positions, timestamps);
    GradientOfAffine(positions, timestamps, v0, p0);
    GradientOfAffine(velocity, timestamps, 0.0, v0);
  }
}
