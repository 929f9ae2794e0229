/**
 * Repetition segmentation: every detected peak is paired with the nearest valley
 * strictly before it and the nearest valley strictly after it, and each fully
 * bracketed peak yields one {start, peak, end} record of timestamps.
 *
 * The peak and valley detector is not part of this model: its outputs are taken as
 * index sequences. LocalMaxima and LocalMinima state a necessary condition that
 * any output of the detector satisfies.
 */
module Segmentation {
  import opened Series

  /** One repetition, as the three timestamps of its bottom, top and bottom. */
  datatype Repetition = Repetition(start: real, peak: real, end: real)

  /** Every index is a valid position in a series of length n. */
  predicate IndicesIn(idx: seq<nat>, n: nat)
  {
    forall k :: 0 <= k < |idx| ==> idx[k] < n
  }

  /** Indices in strictly ascending order (as the detector reports them). */
  predicate StrictlySorted(idx: seq<nat>)
  {
    forall a, b :: 0 <= a < b < |idx| ==> idx[a] < idx[b]
  }

  /**
   * The detector reports only interior samples that are no lower than their two
   * neighbours: its output indexes the trace and never names the first or last sample.
   */
  ghost predicate LocalMaxima(x: seq<real>, idx: seq<nat>): (b: bool)
    ensures b ==> IndicesIn(idx, |x|) && 0 !in idx && (|x| > 0 ==> |x| - 1 !in idx)
  {
    assert forall k :: 0 <= k < |idx| ==> idx[k] in idx;
    forall i :: i in idx ==> 0 < i < |x| - 1 && x[i - 1] <= x[i] && x[i + 1] <= x[i]
  }

  /**
   * Valleys are peaks of the negated signal: interior samples no higher than their
   * neighbours, so again valid indices other than the first and the last.
   */
  ghost predicate LocalMinima(x: seq<real>, idx: seq<nat>): (b: bool)
    ensures b ==> IndicesIn(idx, |x|) && 0 !in idx && (|x| > 0 ==> |x| - 1 !in idx)
  {
    assert forall k :: 0 <= k < |idx| ==> idx[k] in idx;
    forall i :: i in idx ==> 0 < i < |x| - 1 && x[i - 1] >= x[i] && x[i + 1] >= x[i]
  }

  /** The valleys strictly before p, in their original order (a boolean-mask selection). */
  function Below(valleys: seq<nat>, p: nat): (r: seq<nat>)
    ensures |r| <= |valleys|
  {
    if valleys == [] then []
    else if valleys[0] < p then [valleys[0]] + Below(valleys[1..], p)
    else Below(valleys[1..], p)
  }

  /** The valleys strictly after p, in their original order (a boolean-mask selection). */
  function Above(valleys: seq<nat>, p: nat): (r: seq<nat>)
    ensures |r| <= |valleys|
  {
    if valleys == [] then []
    else if valleys[0] > p then [valleys[0]] + Above(valleys[1..], p)
    else Above(valleys[1..], p)
  }

  /** In a strictly sorted sequence every element of the tail is larger than the head. */
  lemma TailAfterHead(idx: seq<nat>)
    requires |idx| > 0 && StrictlySorted(idx)
    ensures forall v :: v in idx[1..] ==> idx[0] < v
  {
  }

  /** Below keeps exactly the valleys left of p, and keeps them sorted. */
  lemma {:induction false} BelowSelects(valleys: seq<nat>, p: nat)
    ensures forall v :: v in Below(valleys, p) <==> v in valleys && v < p
    ensures StrictlySorted(valleys) ==> StrictlySorted(Below(valleys, p))
  {
    if valleys != [] {
      BelowSelects(valleys[1..], p);
      assert forall v :: v in valleys <==> v == valleys[0] || v in valleys[1..];
      if StrictlySorted(valleys) {
        TailAfterHead(valleys);
        var r := Below(valleys, p);
        var rest := Below(valleys[1..], p);
        forall a, b | 0 <= a < b < |r|
          ensures r[a] < r[b]
        {
          if r == [valleys[0]] + rest && a == 0 {
            assert r[b] == rest[b - 1] && rest[b - 1] in rest;
          }
        }
      }
    }
  }

  /** Above keeps exactly the valleys right of p, and keeps them sorted. */
  lemma {:induction false} AboveSelects(valleys: seq<nat>, p: nat)
    ensures forall v :: v in Above(valleys, p) <==> v in valleys && v > p
    ensures StrictlySorted(valleys) ==> StrictlySorted(Above(valleys, p))
  {
    if valleys != [] {
      AboveSelects(valleys[1..], p);
      assert forall v :: v in valleys <==> v == valleys[0] || v in valleys[1..];
      if StrictlySorted(valleys) {
        TailAfterHead(valleys);
        var r := Above(valleys, p);
        var rest := Above(valleys[1..], p);
        forall a, b | 0 <= a < b < |r|
          ensures r[a] < r[b]
        {
          if r == [valleys[0]] + rest && a == 0 {
            assert r[b] == rest[b - 1] && rest[b - 1] in rest;
          }
        }
      }
    }
  }

  /** Both selections index the trace whenever the valleys do. */
  lemma SelectionsIndexTrace(valleys: seq<nat>, p: nat, n: nat)
    requires IndicesIn(valleys, n)
    ensures IndicesIn(Below(valleys, p), n) && IndicesIn(Above(valleys, p), n)
  {
    BelowSelects(valleys, p);
    AboveSelects(valleys, p);
    assert forall k :: 0 <= k < |Below(valleys, p)| ==> Below(valleys, p)[k] in Below(valleys, p);
    assert forall k :: 0 <= k < |Above(valleys, p)| ==> Above(valleys, p)[k] in Above(valleys, p);
  }

  /** Some valley lies strictly left of p and some valley strictly right of it. */
  ghost predicate HasBracket(valleys: seq<nat>, p: nat)
  {
    (exists v :: v in valleys && v < p) && (exists v :: v in valleys && p < v)
  }

  /**
   * s is the valley nearest to p from the left and e the valley nearest to p from
   * the right: no other valley lies in (s, p) or in (p, e).
   */
  ghost predicate Brackets(valleys: seq<nat>, s: nat, p: nat, e: nat)
  {
    && s in valleys && s < p && (forall v :: v in valleys && v < p ==> v <= s)
    && e in valleys && p < e && (forall v :: v in valleys && p < v ==> e <= v)
  }

  /** r runs from the nearest valley left of p, through p, to the nearest valley right of p. */
  ghost predicate IsRepetitionOf(timestamps: seq<real>, valleys: seq<nat>, p: nat, r: Repetition)
  {
    exists s: nat, e: nat :: Brackets(valleys, s, p, e) && e < |timestamps| &&
      r == Repetition(timestamps[s], timestamps[p], timestamps[e])
  }

  /** What one peak contributes: one repetition when bracketed by valleys, nothing otherwise. */
  function RepetitionAt(timestamps: seq<real>, valleys: seq<nat>, p: nat): (r: seq<Repetition>)
    requires p < |timestamps| && IndicesIn(valleys, |timestamps|)
    ensures |r| <= 1
  {
    var prev := Below(valleys, p);
    var next := Above(valleys, p);
    if |prev| > 0 && |next| > 0 then
      SelectionsIndexTrace(valleys, p, |timestamps|);
      [Repetition(timestamps[prev[|prev| - 1]], timestamps[p], timestamps[next[0]])]
    else []
  }

  /** The repetitions of all peaks, in peak order. */
  function Repetitions(timestamps: seq<real>, peaks: seq<nat>, valleys: seq<nat>): seq<Repetition>
    requires IndicesIn(peaks, |timestamps|) && IndicesIn(valleys, |timestamps|)
  {
    if peaks == [] then []
    else Repetitions(timestamps, peaks[..|peaks| - 1], valleys) + RepetitionAt(timestamps, valleys, peaks[|peaks| - 1])
  }

  /** The pairing loop: for each peak, select the valleys on either side and emit a record. */
  method DetectRepetitions(timestamps: seq<real>, peaks: seq<nat>, valleys: seq<nat>)
    returns (reps: seq<Repetition>)
    requires IndicesIn(peaks, |timestamps|) && IndicesIn(valleys, |timestamps|)
    ensures reps == Repetitions(timestamps, peaks, valleys)
    ensures |reps| <= |peaks|
  {
    reps := [];
    for i := 0 to |peaks|
      invariant reps == Repetitions(timestamps, peaks[..i], valleys)
    {
      var peak := peaks[i];
      var prevValleys := Below(valleys, peak);
      var nextValleys := Above(valleys, peak);
      if |prevValleys| > 0 && |nextValleys| > 0 {
        SelectionsIndexTrace(valleys, peak, |timestamps|);
        var start := timestamps[prevValleys[|prevValleys| - 1]];
        var peakTime := timestamps[peak];
        var end := timestamps[nextValleys[0]];
        reps := reps + [Repetition(start, peakTime, end)];
      }
      assert peaks[..i + 1][..i] == peaks[..i];
    }
    assert peaks[..|peaks|] == peaks;
    RepetitionsCount(timestamps, peaks, valleys);
  }

  /** The last element of a strictly sorted sequence is its largest, the first its smallest. */
  lemma SortedEnds(r: seq<nat>)
    requires StrictlySorted(r) && |r| > 0
    ensures forall v :: v in r ==> r[0] <= v <= r[|r| - 1]
  {
    forall v | v in r
      ensures r[0] <= v <= r[|r| - 1]
    {
      var k :| 0 <= k < |r| && r[k] == v;
    }
  }

  /**
   * A peak contributes a repetition exactly when valleys lie on both of its sides,
   * and that repetition runs from the nearest valley on the left to the nearest
   * valley on the right.
   */
  lemma RepetitionAtBracket(timestamps: seq<real>, valleys: seq<nat>, p: nat)
    requires p < |timestamps| && IndicesIn(valleys, |timestamps|)
    requires StrictlySorted(valleys)
    ensures RepetitionAt(timestamps, valleys, p) != [] <==> HasBracket(valleys, p)
    ensures forall r :: r in RepetitionAt(timestamps, valleys, p) ==> IsRepetitionOf(timestamps, valleys, p, r)
    ensures forall s: nat, e: nat :: Brackets(valleys, s, p, e) ==>
      e < |timestamps| && RepetitionAt(timestamps, valleys, p) == [Repetition(timestamps[s], timestamps[p], timestamps[e])]
  {
    var prev := Below(valleys, p);
    var next := Above(valleys, p);
    BelowSelects(valleys, p);
    AboveSelects(valleys, p);
    if |prev| > 0 && |next| > 0 {
      SortedEnds(prev);
      SortedEnds(next);
      var s, e := prev[|prev| - 1], next[0];
      assert s in prev && e in next;
      assert Brackets(valleys, s, p, e);
      assert e < |timestamps|;
      forall s': nat, e': nat | Brackets(valleys, s', p, e')
        ensures s' == s && e' == e
      {
      }
    } else if |prev| == 0 {
      assert forall v :: v in valleys ==> v >= p;
    } else {
      assert forall v :: v in valleys ==> v <= p;
    }
  }

  /** There are never more repetitions than peaks. */
  lemma {:induction false} RepetitionsCount(timestamps: seq<real>, peaks: seq<nat>, valleys: seq<nat>)
    requires IndicesIn(peaks, |timestamps|) && IndicesIn(valleys, |timestamps|)
    ensures |Repetitions(timestamps, peaks, valleys)| <= |peaks|
  {
    if peaks != [] {
      RepetitionsCount(timestamps, peaks[..|peaks| - 1], valleys);
    }
  }

  /** Every repetition is the one delimited by the nearest valleys around one of the peaks. */
  lemma {:induction false} RepetitionsSound(timestamps: seq<real>, peaks: seq<nat>, valleys: seq<nat>)
    requires IndicesIn(peaks, |timestamps|) && IndicesIn(valleys, |timestamps|)
    requires StrictlySorted(valleys)
    ensures forall r :: r in Repetitions(timestamps, peaks, valleys) ==>
      exists j :: 0 <= j < |peaks| && IsRepetitionOf(timestamps, valleys, peaks[j], r)
  {
    if peaks != [] {
      var n := |peaks| - 1;
      var init := peaks[..n];
      RepetitionsSound(timestamps, init, valleys);
      RepetitionAtBracket(timestamps, valleys, peaks[n]);
      forall r | r in Repetitions(timestamps, peaks, valleys)
        ensures exists j :: 0 <= j < |peaks| && IsRepetitionOf(timestamps, valleys, peaks[j], r)
      {
        if r in Repetitions(timestamps, init, valleys) {
          var j :| 0 <= j < |init| && IsRepetitionOf(timestamps, valleys, init[j], r);
          assert init[j] == peaks[j];
        } else {
          assert IsRepetitionOf(timestamps, valleys, peaks[n], r);
        }
      }
    }
  }

  /** Every peak bracketed by valleys is reported, with its nearest valleys as start and end. */
  lemma {:induction false} RepetitionsComplete(timestamps: seq<real>, peaks: seq<nat>, valleys: seq<nat>, j: nat, s: nat, e: nat)
    requires IndicesIn(peaks, |timestamps|) && IndicesIn(valleys, |timestamps|)
    requires StrictlySorted(valleys)
    requires j < |peaks| && Brackets(valleys, s, peaks[j], e)
    ensures e < |timestamps|
    ensures Repetition(timestamps[s], timestamps[peaks[j]], timestamps[e]) in Repetitions(timestamps, peaks, valleys)
  {
    var n := |peaks| - 1;
    if j == n {
      RepetitionAtBracket(timestamps, valleys, peaks[j]);
    } else {
      assert peaks[..n][j] == peaks[j];
      RepetitionsComplete(timestamps, peaks[..n], valleys, j, s, e);
    }
  }

  /** start < peak < end for every repetition, when time runs strictly forward. */
  lemma RepetitionsOrdered(timestamps: seq<real>, peaks: seq<nat>, valleys: seq<nat>)
    requires IndicesIn(peaks, |timestamps|) && IndicesIn(valleys, |timestamps|)
    requires StrictlySorted(valleys) && StrictlyIncreasing(timestamps)
    ensures forall r :: r in Repetitions(timestamps, peaks, valleys) ==> r.start < r.peak < r.end
  {
    RepetitionsSound(timestamps, peaks, valleys);
    forall r | r in Repetitions(timestamps, peaks, valleys)
      ensures r.start < r.peak < r.end
    {
      var j :| 0 <= j < |peaks| && IsRepetitionOf(timestamps, valleys, peaks[j], r);
      var s: nat, e: nat :| Brackets(valleys, s, peaks[j], e) && e < |timestamps| &&
        r == Repetition(timestamps[s], timestamps[peaks[j]], timestamps[e]);
    }
  }

  /** Every field of every repetition is one of the input timestamps. */
  lemma RepetitionsFromTimestamps(timestamps: seq<real>, peaks: seq<nat>, valleys: seq<nat>)
    requires IndicesIn(peaks, |timestamps|) && IndicesIn(valleys, |timestamps|)
    requires StrictlySorted(valleys)
    ensures forall r :: r in Repetitions(timestamps, peaks, valleys) ==>
      r.start in timestamps && r.peak in timestamps && r.end in timestamps
  {
    RepetitionsSound(timestamps, peaks, valleys);
    forall r | r in Repetitions(timestamps, peaks, valleys)
      ensures r.start in timestamps && r.peak in timestamps && r.end in timestamps
    {
      var j :| 0 <= j < |peaks| && IsRepetitionOf(timestamps, valleys, peaks[j], r);
      var s: nat, e: nat :| Brackets(valleys, s, peaks[j], e) && e < |timestamps| &&
        r == Repetition(timestamps[s], timestamps[peaks[j]], timestamps[e]);
    }
  }

  /** A peak without a valley on each side contributes no repetition. */
  lemma UnbracketedPeakDropped(timestamps: seq<real>, peaks: seq<nat>, valleys: seq<nat>, j: nat)
    requires IndicesIn(peaks, |timestamps|) && IndicesIn(valleys, |timestamps|)
    requires StrictlySorted(valleys) && StrictlyIncreasing(timestamps)
    requires j < |peaks| && !HasBracket(valleys, peaks[j])
    ensures forall r :: r in Repetitions(timestamps, peaks, valleys) ==> r.peak != timestamps[peaks[j]]
  {
    RepetitionsSound(timestamps, peaks, valleys);
    forall r | r in Repetitions(timestamps, peaks, valleys)
      ensures r.peak != timestamps[peaks[j]]
    {
      var k :| 0 <= k < |peaks| && IsRepetitionOf(timestamps, valleys, peaks[k], r);
      var s: nat, e: nat :| Brackets(valleys, s, peaks[k], e) && e < |timestamps| &&
        r == Repetition(timestamps[s], timestamps[peaks[k]], timestamps[e]);
      assert s in valleys && s < peaks[k] && e in valleys && peaks[k] < e;
      assert HasBracket(valleys, peaks[k]);
    }
  }

  /** When no peak is bracketed by valleys, no repetition is reported at all. */
  lemma {:induction false} NoBracketNoRepetitions(timestamps: seq<real>, peaks: seq<nat>, valleys: seq<nat>)
    requires IndicesIn(peaks, |timestamps|) && IndicesIn(valleys, |timestamps|)
    requires StrictlySorted(valleys)
    requires forall j :: 0 <= j < |peaks| ==> !HasBracket(valleys, peaks[j])
    ensures Repetitions(timestamps, peaks, valleys) == []
  {
    if peaks != [] {
      var n := |peaks| - 1;
      NoBracketNoRepetitions(timestamps, peaks[..n], valleys);
      RepetitionAtBracket(timestamps, valleys, peaks[n]);
    }
  }

  /** Every repetition's peak time is the timestamp of one of the peaks. */
  lemma {:induction false} RepetitionPeaksFromPeaks(timestamps: seq<real>, peaks: seq<nat>, valleys: seq<nat>)
    requires IndicesIn(peaks, |timestamps|) && IndicesIn(valleys, |timestamps|)
    ensures forall r :: r in Repetitions(timestamps, peaks, valleys) ==>
      exists j :: 0 <= j < |peaks| && r.peak == timestamps[peaks[j]]
  {
    if peaks != [] {
      var n := |peaks| - 1;
      RepetitionPeaksFromPeaks(timestamps, peaks[..n], valleys);
      forall r | r in Repetitions(timestamps, peaks, valleys)
        ensures exists j :: 0 <= j < |peaks| && r.peak == timestamps[peaks[j]]
      {
        if r in Repetitions(timestamps, peaks[..n], valleys) {
          var j :| 0 <= j < n && r.peak == timestamps[peaks[..n][j]];
          assert peaks[..n][j] == peaks[j];
        } else {
          assert r.peak == timestamps[peaks[n]];
        }
      }
    }
  }

  /** Repetitions are reported in the order of their peaks: peak times strictly increase. */
  lemma {:induction false} RepetitionsInPeakOrder(timestamps: seq<real>, peaks: seq<nat>, valleys: seq<nat>)
    requires IndicesIn(peaks, |timestamps|) && IndicesIn(valleys, |timestamps|)
    requires StrictlySorted(peaks) && StrictlyIncreasing(timestamps)
    ensures forall a, b :: 0 <= a < b < |Repetitions(timestamps, peaks, valleys)| ==>
      Repetitions(timestamps, peaks, valleys)[a].peak < Repetitions(timestamps, peaks, valleys)[b].peak
  {
    if peaks != [] {
      var n := |peaks| - 1;
      var init := peaks[..n];
      var front := Repetitions(timestamps, init, valleys);
      var reps := Repetitions(timestamps, peaks, valleys);
      RepetitionsInPeakOrder(timestamps, init, valleys);
      RepetitionPeaksFromPeaks(timestamps, init, valleys);
      forall a, b | 0 <= a < b < |reps|
        ensures reps[a].peak < reps[b].peak
      {
        assert reps == front + RepetitionAt(timestamps, valleys, peaks[n]);
        if b >= |front| {
          assert reps[b] == RepetitionAt(timestamps, valleys, peaks[n])[0];
          assert reps[b].peak == timestamps[peaks[n]];
          assert reps[a] == front[a] && front[a] in front;
          var j :| 0 <= j < n && front[a].peak == timestamps[init[j]];
          assert init[j] == peaks[j] && peaks[j] < peaks[n] < |timestamps|;
          assert timestamps[peaks[j]] < timestamps[peaks[n]];
        } else {
          assert reps[a] == front[a] && reps[b] == front[b];
          assert front[a].peak < front[b].peak;
        }
      }
    }
  }

  /**
   * Valleys are not deduplicated: when no valley lies between two peaks, both peaks
   * are bracketed by the same valleys and their repetitions share start and end.
   */
  lemma SharedValleys(timestamps: seq<real>, valleys: seq<nat>, p1: nat, p2: nat)
    requires p1 < p2 < |timestamps| && IndicesIn(valleys, |timestamps|)
    requires StrictlySorted(valleys)
    requires forall v :: v in valleys ==> v < p1 || p2 < v
    requires RepetitionAt(timestamps, valleys, p1) != []
    ensures RepetitionAt(timestamps, valleys, p2) != []
    ensures RepetitionAt(timestamps, valleys, p2)[0].start == RepetitionAt(timestamps, valleys, p1)[0].start
    ensures RepetitionAt(timestamps, valleys, p2)[0].end == RepetitionAt(timestamps, valleys, p1)[0].end
  {
    RepetitionAtBracket(timestamps, valleys, p1);
    RepetitionAtBracket(timestamps, valleys, p2);
    var r := RepetitionAt(timestamps, valleys, p1)[0];
    assert r in RepetitionAt(timestamps, valleys, p1);
    var s: nat, e: nat :| Brackets(valleys, s, p1, e) && e < |timestamps| &&
      r == Repetition(timestamps[s], timestamps[p1], timestamps[e]);
    assert Brackets(valleys, s, p2, e);
  }

  /**
   * Two lifts sampled once per second, starting and ending at the bottom, with no
   * smoothing: one might expect two repetitions from this trace, but it yields NONE.
   * The detector reports only interior extrema, so the first peak has no valley
   * before it and the last peak none after it.
   */
  lemma EndToEndScenarioYieldsNothing(peaks: seq<nat>, valleys: seq<nat>)
    requires StrictlySorted(valleys)
    requires LocalMaxima([0.0, 0.1, 0.2, 0.1, 0.0, 0.1, 0.2, 0.1, 0.0], peaks)
    requires LocalMinima([0.0, 0.1, 0.2, 0.1, 0.0, 0.1, 0.2, 0.1, 0.0], valleys)
    ensures Repetitions([0.0, 1.0, 2.0, 3.0, 4.0, 5.0, 6.0, 7.0, 8.0], peaks, valleys) == []
  {
    var x := [0.0, 0.1, 0.2, 0.1, 0.0, 0.1, 0.2, 0.1, 0.0];
    var ts := [0.0, 1.0, 2.0, 3.0, 4.0, 5.0, 6.0, 7.0, 8.0];
    assert forall v :: v in valleys ==> v == 4 by {
      forall v | v in valleys ensures v == 4 {
        assert 0 < v < 8 && x[v - 1] >= x[v] && x[v + 1] >= x[v];
      }
    }
    assert forall p :: p in peaks ==> p == 2 || p == 6 by {
      forall p | p in peaks ensures p == 2 || p == 6 {
        assert 0 < p < 8 && x[p - 1] <= x[p] && x[p + 1] <= x[p];
      }
    }
    forall j | 0 <= j < |peaks|
      ensures !HasBracket(valleys, peaks[j])
    {
      assert peaks[j] in peaks;
    }
    NoBracketNoRepetitions(ts, peaks, valleys);
  }
}
