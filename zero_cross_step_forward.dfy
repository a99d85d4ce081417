/** zero_cross_step_forward: negative samples are clipped to zero, and every
    clipped sample above the threshold spikes. */
module ZeroCrossStepForwardAlgorithm {
  import opened Common

  /** zero_cross_step_forward: fails on an empty signal; otherwise a pointwise
      0/1 train. */
  function ZeroCrossStepForward(s: seq<real>, threshold: real): (r: Result<seq<int>>)
    ensures r.Err? <==> |s| == 0
    ensures r.Err? ==> r.error == EmptySignal
    ensures r.Ok? ==> |r.value| == |s| && IsBinary(r.value)
  {
    if |s| == 0 then Err(EmptySignal)
    else Ok(seq(|s|, i requires 0 <= i < |s| => if Max0(s[i]) > threshold then 1 else 0))
  }

  /** A sample spikes exactly when its clipped value exceeds the threshold. */
  lemma SpikeIff(s: seq<real>, threshold: real, i: nat)
    requires i < |s|
    ensures ZeroCrossStepForward(s, threshold).value[i] == 1 <==> Max0(s[i]) > threshold
  {
  }

  /** With a non-negative threshold the clipping changes nothing: a sample
      spikes exactly when it exceeds the threshold, so no negative sample spikes. */
  lemma NonNegativeThreshold(s: seq<real>, threshold: real, i: nat)
    requires i < |s| && threshold >= 0.0
    ensures ZeroCrossStepForward(s, threshold).value[i] == 1 <==> s[i] > threshold
    ensures s[i] <= 0.0 ==> ZeroCrossStepForward(s, threshold).value[i] == 0
  {
  }

  /** With a negative threshold every sample spikes, since a clipped sample is never negative. */
  lemma NegativeThreshold(s: seq<real>, threshold: real)
    requires |s| > 0 && threshold < 0.0
    ensures forall i :: 0 <= i < |s| ==> ZeroCrossStepForward(s, threshold).value[i] == 1
  {
  }

  /** Output i depends only on sample i. */
  lemma Pointwise(a: seq<real>, b: seq<real>, threshold: real, i: nat, j: nat)
    requires i < |a| && j < |b| && a[i] == b[j]
    ensures ZeroCrossStepForward(a, threshold).value[i] == ZeroCrossStepForward(b, threshold).value[j]
  {
  }

  /** [0, 1, ..., 9] with threshold 5 spikes at the last four samples. */
  lemma Ramp(x: seq<real>)
    requires x == [0.0, 1.0, 2.0, 3.0, 4.0, 5.0, 6.0, 7.0, 8.0, 9.0]
    ensures ZeroCrossStepForward(x, 5.0) == Ok([0, 0, 0, 0, 0, 0, 1, 1, 1, 1])
  {
    var r := ZeroCrossStepForward(x, 5.0).value;
    assert r[0] == 0 && r[1] == 0 && r[2] == 0 && r[3] == 0 && r[4] == 0 && r[5] == 0 && r[6] == 1 && r[7] == 1 && r[8] == 1 && r[9] == 1;
    assert r == [0, 0, 0, 0, 0, 0, 1, 1, 1, 1];
  }

  /** [-1, -2, -3, 4, 5, -6, 7] with threshold 5 spikes only at 7. */
  lemma MixedSigns(x: seq<real>)
    requires x == [-1.0, -2.0, -3.0, 4.0, 5.0, -6.0, 7.0]
    ensures ZeroCrossStepForward(x, 5.0) == Ok([0, 0, 0, 0, 0, 0, 1])
  {
    var r := ZeroCrossStepForward(x, 5.0).value;
    assert r[0] == 0 && r[1] == 0 && r[2] == 0 && r[3] == 0 && r[4] == 0 && r[5] == 0 && r[6] == 1;
    assert r == [0, 0, 0, 0, 0, 0, 1];
  }

  /** [-1, 0, 1, 2, 3] with threshold 0 spikes at the positive samples. */
  lemma ZeroThreshold(x: seq<real>)
    requires x == [-1.0, 0.0, 1.0, 2.0, 3.0]
    ensures ZeroCrossStepForward(x, 0.0) == Ok([0, 0, 1, 1, 1])
  {
    var r := ZeroCrossStepForward(x, 0.0).value;
    assert r[0] == 0 && r[1] == 0 && r[2] == 1 && r[3] == 1 && r[4] == 1;
    assert r == [0, 0, 1, 1, 1];
  }
}
