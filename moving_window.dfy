/** moving_window: every sample is compared with the mean of a trailing window
    of the unmodified input. */
module MovingWindowAlgorithm {
  import opened Common

  /** The baseline at position t: the mean of the first min(w, n) samples while
      t < w, afterwards the mean of the w samples before t (sample t excluded).
      It is a mean, so the baseline of a non-negative signal is non-negative. */
  function Baseline(s: seq<real>, w: int, t: nat): (b: real)
    requires w >= 1 && t < |s|
    ensures (forall i :: 0 <= i < |s| ==> s[i] >= 0.0) ==> b >= 0.0
  {
    if t < w then Mean(s[..Min(w, |s|)]) else Mean(s[t - w..t])
  }

  /** The spike train moving_window returns for a non-empty signal. A window
      below 1 makes every trailing slice signal[t - w:t] empty, so its mean is
      NaN, both comparisons are false and no sample spikes. */
  function MovingWindowSpikes(s: seq<real>, w: int, threshold: real): (r: seq<int>)
    ensures |r| == |s| && IsTernary(r)
    ensures w >= 1 ==> forall t :: 0 <= t < |s| ==> (r[t] == 1 <==> s[t] > Baseline(s, w, t) + threshold)
    ensures w >= 1 ==> forall t :: 0 <= t < |s| ==>
      (r[t] == -1 <==> s[t] <= Baseline(s, w, t) + threshold && s[t] < Baseline(s, w, t) - threshold)
    ensures w < 1 ==> forall t :: 0 <= t < |s| ==> r[t] == 0
  {
    seq(|s|, t requires 0 <= t < |s| => if w < 1 then 0 else Classify(s[t], Baseline(s, w, t), threshold))
  }

  /** Sample t is classified against its baseline, or silent below a window of 1. */
  lemma SpikeAt(s: seq<real>, w: int, threshold: real, t: nat)
    requires t < |s|
    ensures MovingWindowSpikes(s, w, threshold)[t] == if w < 1 then 0 else Classify(s[t], Baseline(s, w, t), threshold)
  {
  }

  /** moving_window: fails on an empty signal, otherwise fills the spike
      array position by position. */
  method MovingWindow(signal: seq<real>, window: int, threshold: real) returns (r: Result<seq<int>>)
    ensures |signal| == 0 ==> r == Err(EmptySignal)
    ensures |signal| > 0 ==> r == Ok(MovingWindowSpikes(signal, window, threshold))
  {
    if |signal| == 0 {
      return Err(EmptySignal);
    }
    var n := |signal|;
    var spikes := new int[n](_ => 0);
    ghost var spec := MovingWindowSpikes(signal, window, threshold);
    for t := 0 to n
      invariant forall i :: 0 <= i < t ==> spikes[i] == spec[i]
      invariant forall i :: t <= i < n ==> spikes[i] == 0
    {
      SpikeAt(signal, window, threshold, t);
      // below a window of 1 the base is the NaN mean of an empty slice,
      // which neither comparison passes
      if window >= 1 {
        var base := Baseline(signal, window, t);
        if signal[t] > base + threshold {
          spikes[t] := 1;
        } else if signal[t] < base - threshold {
          spikes[t] := -1;
        }
        assert spikes[t] == Classify(signal[t], base, threshold);
      }
      assert spikes[t] == spec[t];
    }
    assert spikes[..] == spec;
    return Ok(spikes[..]);
  }

  /** A constant signal never leaves a non-negative band around its own mean. */
  lemma ConstantSilent(s: seq<real>, c: real, w: int, threshold: real)
    requires w >= 1 && threshold >= 0.0
    requires forall i :: 0 <= i < |s| ==> s[i] == c
    ensures forall t :: 0 <= t < |s| ==> MovingWindowSpikes(s, w, threshold)[t] == 0
  {
    forall t | 0 <= t < |s| ensures Baseline(s, w, t) == c {
      if t < w {
        MeanConstant(s[..Min(w, |s|)], c);
      } else {
        MeanConstant(s[t - w..t], c);
      }
    }
  }

  /** Every baseline lies between the least and the greatest sample of the signal. */
  lemma BaselineBounds(s: seq<real>, w: int, t: nat, lo: real, hi: real)
    requires w >= 1 && t < |s|
    requires forall i :: 0 <= i < |s| ==> lo <= s[i] <= hi
    ensures lo <= Baseline(s, w, t) <= hi
  {
    if t < w {
      MeanBounds(s[..Min(w, |s|)], lo, hi);
    } else {
      MeanBounds(s[t - w..t], lo, hi);
    }
  }

  /** A window at least as long as the signal makes every baseline the mean of the whole signal. */
  lemma LongWindow(s: seq<real>, w: int, t: nat)
    requires w >= |s| && t < |s|
    ensures Baseline(s, w, t) == Mean(s)
  {
    assert s[..Min(w, |s|)] == s;
  }

  /** Past the first window, the output at t depends only on samples t - w through t. */
  lemma TrailingWindowOnly(a: seq<real>, b: seq<real>, w: int, threshold: real, t: nat)
    requires w >= 1 && w <= t < |a| && |a| == |b|
    requires a[t - w..t + 1] == b[t - w..t + 1]
    ensures MovingWindowSpikes(a, w, threshold)[t] == MovingWindowSpikes(b, w, threshold)[t]
  {
    assert a[t - w..t] == a[t - w..t + 1][..w];
    assert b[t - w..t] == b[t - w..t + 1][..w];
    assert a[t] == a[t - w..t + 1][w];
    SpikeAt(a, w, threshold, t);
    SpikeAt(b, w, threshold, t);
  }
}
