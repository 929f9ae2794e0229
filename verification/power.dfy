/**
 * Work and power estimates: work from the total vertical displacement, average
 * power over the whole recording (with a one-second fallback for a zero duration),
 * and instantaneous power as net upward force times velocity.
 */
module Power {
  import opened Series

  /** Gravitational acceleration in m/s^2, a fixed constant of the analysis. */
  const G: real := 9.81

  /** The aggregate metrics: work in joules and average power in watts. */
  datatype WorkAndPower = WorkAndPower(work: real, avgPower: real)

  /** Vertical displacement: highest minus lowest position over the whole trace. */
  function Displacement(positions: seq<real>): (h: real)
    requires |positions| > 0
    ensures h >= 0.0
  {
    Max(positions) - Min(positions)
  }

  /**
   * The displacement is the largest rise between any two samples: no two samples
   * differ by more, and some two samples differ by exactly that much.
   */
  lemma DisplacementIsLargestRise(positions: seq<real>)
    requires |positions| > 0
    ensures forall i, j :: 0 <= i < |positions| && 0 <= j < |positions| ==>
      positions[i] - positions[j] <= Displacement(positions)
    ensures exists i, j ::
      0 <= i < |positions| && 0 <= j < |positions| && positions[i] - positions[j] == Displacement(positions)
  {
    var top := Max(positions);
    var bottom := Min(positions);
    var i :| 0 <= i < |positions| && positions[i] == top;
    var j :| 0 <= j < |positions| && positions[j] == bottom;
    assert positions[i] - positions[j] == Displacement(positions);
  }

  /**
   * Duration of the recording, last timestamp minus first; when the two are equal
   * the duration is taken to be one second so that the average is always defined.
   */
  function TotalTime(timestamps: seq<real>): (d: real)
    requires |timestamps| > 0
    ensures d != 0.0
    ensures timestamps[0] <= timestamps[|timestamps| - 1] ==> d > 0.0
  {
    if timestamps[|timestamps| - 1] != timestamps[0] then timestamps[|timestamps| - 1] - timestamps[0] else 1.0
  }

  /**
   * Work lifting the mass through the displacement, and that work spread over the
   * duration: average power times the duration gives back the work, with a
   * non-negative mass the work is non-negative, and so is the average power when
   * time does not run backward.
   */
  function ComputePowerOutput(positions: seq<real>, timestamps: seq<real>, mass: real): (r: WorkAndPower)
    requires |positions| > 0 && |timestamps| > 0
    ensures r.avgPower * TotalTime(timestamps) == r.work
    ensures mass >= 0.0 ==> r.work >= 0.0
    ensures mass >= 0.0 && timestamps[0] <= timestamps[|timestamps| - 1] ==> r.avgPower >= 0.0
  {
    var work := mass * G * Displacement(positions);
    WorkAndPower(work, work / TotalTime(timestamps))
  }

  /** Power at each sample: force mass * (acceleration + G) times velocity. */
  function ComputeInstantaneousPower(velocities: seq<real>, accelerations: seq<real>, mass: real): (p: seq<real>)
    requires |velocities| == |accelerations|
    ensures |p| == |velocities|
  {
    seq(|velocities|, i requires 0 <= i < |velocities| => mass * (accelerations[i] + G) * velocities[i])
  }

  /** When the positions stay within [lo, hi] and reach both bounds, the displacement is hi - lo. */
  lemma DisplacementOfRange(positions: seq<real>, lo: real, hi: real)
    requires |positions| > 0
    requires forall i :: 0 <= i < |positions| ==> lo <= positions[i] <= hi
    requires lo in positions && hi in positions
    ensures Displacement(positions) == hi - lo
  {
    DisplacementIsLargestRise(positions);
    var iHi :| 0 <= iHi < |positions| && positions[iHi] == hi;
    var iLo :| 0 <= iLo < |positions| && positions[iLo] == lo;
    assert positions[iHi] - positions[iLo] <= Displacement(positions);
    var i, j :| 0 <= i < |positions| && 0 <= j < |positions| && positions[i] - positions[j] == Displacement(positions);
    assert positions[i] <= hi && lo <= positions[j];
  }

  /**
   * When the positions stay within [lo, hi] and reach both bounds, the work is
   * mass * G * (hi - lo): the peak-to-trough amplitude is what is lifted.
   */
  lemma WorkOfKnownAmplitude(positions: seq<real>, timestamps: seq<real>, mass: real, lo: real, hi: real)
    requires |positions| > 0 && |timestamps| > 0
    requires forall i :: 0 <= i < |positions| ==> lo <= positions[i] <= hi
    requires lo in positions && hi in positions
    ensures ComputePowerOutput(positions, timestamps, mass).work == mass * G * (hi - lo)
  {
    DisplacementOfRange(positions, lo, hi);
  }

  /** A single-sample trace, or one with equal first and last timestamps, averages over one second. */
  lemma ZeroDurationFallback(positions: seq<real>, timestamps: seq<real>, mass: real)
    requires |positions| > 0 && |timestamps| > 0
    requires timestamps[0] == timestamps[|timestamps| - 1]
    ensures TotalTime(timestamps) == 1.0
    ensures ComputePowerOutput(positions, timestamps, mass).avgPower == ComputePowerOutput(positions, timestamps, mass).work
  {
  }

  /** Work and average power are proportional to the mass. */
  lemma PowerOutputScalesWithMass(positions: seq<real>, timestamps: seq<real>, mass: real, factor: real)
    requires |positions| > 0 && |timestamps| > 0
    ensures ComputePowerOutput(positions, timestamps, factor * mass).work ==
      factor * ComputePowerOutput(positions, timestamps, mass).work
    ensures ComputePowerOutput(positions, timestamps, factor * mass).avgPower ==
      factor * ComputePowerOutput(positions, timestamps, mass).avgPower
  {
    ScaledMetrics(factor, mass, Displacement(positions), TotalTime(timestamps),
      ComputePowerOutput(positions, timestamps, mass), ComputePowerOutput(positions, timestamps, factor * mass));
  }

  /**
   * The scaling step on the metrics themselves: kept apart so that the solver meets
   * this nonlinear fact without the definitions of the trace functions around it.
   */
  lemma ScaledMetrics(factor: real, mass: real, h: real, d: real, r: WorkAndPower, scaled: WorkAndPower)
    requires d != 0.0
    requires r == WorkAndPower(mass * G * h, mass * G * h / d)
    requires scaled == WorkAndPower((factor * mass) * G * h, (factor * mass) * G * h / d)
    ensures scaled.work == factor * r.work && scaled.avgPower == factor * r.avgPower
  {
  }

  /** Every instantaneous power value is proportional to the mass. */
  lemma InstantaneousPowerScalesWithMass(velocities: seq<real>, accelerations: seq<real>, mass: real, factor: real)
    requires |velocities| == |accelerations|
    ensures forall i :: 0 <= i < |velocities| ==>
      ComputeInstantaneousPower(velocities, accelerations, factor * mass)[i] ==
      factor * ComputeInstantaneousPower(velocities, accelerations, mass)[i]
  {
  }

  /**
   * While the net force is upward (acceleration above -G) a positive mass makes the
   * power take the sign of the velocity: positive while rising, zero at rest,
   * negative while lowering.
   */
  lemma InstantaneousPowerSign(velocities: seq<real>, accelerations: seq<real>, mass: real, i: nat)
    requires |velocities| == |accelerations| && i < |velocities|
    requires mass > 0.0 && accelerations[i] > -G
    ensures ComputeInstantaneousPower(velocities, accelerations, mass)[i] > 0.0 <==> velocities[i] > 0.0
    ensures ComputeInstantaneousPower(velocities, accelerations, mass)[i] == 0.0 <==> velocities[i] == 0.0
  {
    var force := mass * (accelerations[i] + G);
    assert force > 0.0;
    var p := force * velocities[i];
    if velocities[i] > 0.0 {
      assert p > 0.0;
    } else if velocities[i] < 0.0 {
      assert p < 0.0;
    }
  }
}
