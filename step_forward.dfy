/** step_forward: a running base starts at the first sample and moves one
    threshold up or down with every spike it emits. */
module StepForwardAlgorithm {
  import opened Common

  /** The base and the spikes emitted so far. */
  datatype StepState = StepState(base: real, spikes: seq<int>)

  /** The base after a spike of polarity e: one threshold up for +1, one down
      for -1, unchanged for anything else. */
  function Moved(base: real, e: int, threshold: real): (m: real)
    ensures e != 1 && e != -1 ==> m == base
  {
    if e == 1 then base + threshold else if e == -1 then base - threshold else base
  }

  /** With a non-negative threshold an up-spike never lowers the base and a
      down-spike never raises it; a positive threshold moves it strictly. */
  lemma MovedDirection(base: real, e: int, threshold: real)
    requires threshold >= 0.0
    ensures e == 1 ==> Moved(base, e, threshold) >= base
    ensures e == -1 ==> Moved(base, e, threshold) <= base
    ensures threshold > 0.0 && (e == 1 || e == -1) ==> Moved(base, e, threshold) != base
  {
  }

  /** A spike of the opposite polarity undoes a move. */
  lemma MovedUndone(base: real, e: int, threshold: real)
    ensures Moved(Moved(base, e, threshold), -e, threshold) == base
  {
  }

  /** The state after the first t samples of a non-empty signal. */
  function Run(s: seq<real>, threshold: real, t: nat): (st: StepState)
    requires |s| > 0 && t <= |s|
    ensures |st.spikes| == t && IsTernary(st.spikes)
    decreases t
  {
    if t == 0 then StepState(s[0], [])
    else
      var prev := Run(s, threshold, t - 1);
      var e := Classify(s[t - 1], prev.base, threshold);
      StepState(Moved(prev.base, e, threshold), prev.spikes + [e])
  }

  /** The spike train of the intended step_forward on a non-empty signal. */
  function StepForwardSpikes(s: seq<real>, threshold: real): (r: seq<int>)
    requires |s| > 0
    ensures |r| == |s| && IsTernary(r)
  {
    Run(s, threshold, |s|).spikes
  }

  /** step_forward with the base update the tests fix (base += threshold on an
      up-spike). An empty signal fails at signal[0]. */
  method StepForward(signal: seq<real>, threshold: real) returns (r: Result<seq<int>>)
    ensures |signal| == 0 ==> r == Err(IndexOutOfRange)
    ensures |signal| > 0 ==> r == Ok(StepForwardSpikes(signal, threshold))
  {
    if |signal| == 0 {
      return Err(IndexOutOfRange);
    }
    var n := |signal|;
    var spike := new int[n](_ => 0);
    var base := signal[0];
    for t := 0 to n
      invariant base == Run(signal, threshold, t).base
      invariant spike[..t] == Run(signal, threshold, t).spikes
      invariant forall i :: t <= i < n ==> spike[i] == 0
    {
      var value := signal[t];
      if value > base + threshold {
        spike[t] := 1;
        base := base + threshold;
      } else if value < base - threshold {
        spike[t] := -1;
        base := base - threshold;
      }
      assert spike[..t + 1] == spike[..t] + [spike[t]];
    }
    assert spike[..] == spike[..n];
    return Ok(spike[..]);
  }

  /** Up-spikes minus down-spikes. */
  function Net(spikes: seq<int>): int
  {
    Count(spikes, 1) - Count(spikes, -1)
  }

  lemma NetAppend(a: seq<int>, e: int)
    requires -1 <= e <= 1
    ensures Net(a + [e]) == Net(a) + e
  {
    assert (a + [e])[..|a|] == a;
  }

  /** k thresholds, added one at a time (subtracted for negative k). */
  function Steps(threshold: real, k: int): real
    decreases if k < 0 then -k else k
  {
    if k == 0 then 0.0
    else if k > 0 then Steps(threshold, k - 1) + threshold
    else Steps(threshold, k + 1) - threshold
  }

  lemma {:induction false} StepsIsProduct(threshold: real, k: int)
    ensures Steps(threshold, k) == threshold * (k as real)
    decreases if k < 0 then -k else k
  {
    if k > 0 {
      StepsIsProduct(threshold, k - 1);
      assert threshold * (k as real) == threshold * ((k - 1) as real) + threshold;
    } else if k < 0 {
      StepsIsProduct(threshold, k + 1);
      assert threshold * (k as real) == threshold * ((k + 1) as real) - threshold;
    }
  }

  lemma ProductForm(base: real, start: real, threshold: real, k: int)
    requires base == start + Steps(threshold, k)
    ensures base == start + threshold * (k as real)
  {
    StepsIsProduct(threshold, k);
  }

  /** Moving by one emitted spike is one more step in its direction. */
  lemma StepsMove(threshold: real, d: int, e: int)
    requires -1 <= e <= 1
    ensures Moved(Steps(threshold, d), e, threshold) == Steps(threshold, d + e)
  {
    if d >= 0 && e == -1 && d > 0 {
      assert Steps(threshold, d) == Steps(threshold, d - 1) + threshold;
    } else if d <= 0 && e == 1 && d < 0 {
      assert Steps(threshold, d) == Steps(threshold, d + 1) - threshold;
    }
  }

  /** The base is the first sample plus Net steps of one threshold. */
  lemma {:induction false} BaseSteps(s: seq<real>, threshold: real, t: nat)
    requires |s| > 0 && t <= |s|
    ensures Run(s, threshold, t).base == s[0] + Steps(threshold, Net(Run(s, threshold, t).spikes))
  {
    if t > 0 {
      BaseSteps(s, threshold, t - 1);
      var prev := Run(s, threshold, t - 1);
      var e := Classify(s[t - 1], prev.base, threshold);
      NetAppend(prev.spikes, e);
      StepsMove(threshold, Net(prev.spikes), e);
    }
  }

  /** The base is the first sample moved by one threshold per up-spike and
      back by one per down-spike. */
  lemma BaseInvariant(s: seq<real>, threshold: real, t: nat)
    requires |s| > 0 && t <= |s|
    ensures Run(s, threshold, t).base == s[0] + threshold * (Net(Run(s, threshold, t).spikes) as real)
  {
    BaseSteps(s, threshold, t);
    ProductForm(Run(s, threshold, t).base, s[0], threshold, Net(Run(s, threshold, t).spikes));
  }

  /** Running one more sample keeps the spikes already emitted. */
  lemma {:induction false} RunPrefix(s: seq<real>, threshold: real, t: nat, u: nat)
    requires |s| > 0 && t <= u <= |s|
    ensures Run(s, threshold, u).spikes[..t] == Run(s, threshold, t).spikes
    decreases u
  {
    if u > t {
      RunPrefix(s, threshold, t, u - 1);
      assert Run(s, threshold, u).spikes[..u - 1] == Run(s, threshold, u - 1).spikes;
    }
  }

  /** The first sample meets the base it set, so a non-negative threshold leaves it silent. */
  lemma FirstQuiet(s: seq<real>, threshold: real)
    requires |s| > 0 && threshold >= 0.0
    ensures StepForwardSpikes(s, threshold)[0] == 0
  {
    RunPrefix(s, threshold, 1, |s|);
  }

  /** [0, 2, 4, 6, 4, 2, 0] with threshold 2 rises twice and falls once. */
  lemma Ramp(x: seq<real>)
    requires x == [0.0, 2.0, 4.0, 6.0, 4.0, 2.0, 0.0]
    ensures StepForwardSpikes(x, 2.0) == [0, 0, 1, 1, 0, 0, -1]
  {
    assert Run(x, 2.0, 1) == StepState(0.0, [0]);
    assert Run(x, 2.0, 2) == StepState(0.0, [0, 0]);
    assert Run(x, 2.0, 3) == StepState(2.0, [0, 0, 1]);
    assert Run(x, 2.0, 4) == StepState(4.0, [0, 0, 1, 1]);
    assert Run(x, 2.0, 5) == StepState(4.0, [0, 0, 1, 1, 0]);
    assert Run(x, 2.0, 6) == StepState(4.0, [0, 0, 1, 1, 0, 0]);
    assert Run(x, 2.0, 7) == StepState(2.0, [0, 0, 1, 1, 0, 0, -1]);
  }

  /** [0, 5, 0, -5, 0] with threshold 4 alternates. */
  lemma Alternating(x: seq<real>)
    requires x == [0.0, 5.0, 0.0, -5.0, 0.0]
    ensures StepForwardSpikes(x, 4.0) == [0, 1, 0, -1, 0]
  {
    assert Run(x, 4.0, 1) == StepState(0.0, [0]);
    assert Run(x, 4.0, 2) == StepState(4.0, [0, 1]);
    assert Run(x, 4.0, 3) == StepState(4.0, [0, 1, 0]);
    assert Run(x, 4.0, 4) == StepState(0.0, [0, 1, 0, -1]);
    assert Run(x, 4.0, 5) == StepState(0.0, [0, 1, 0, -1, 0]);
  }

  /** [10, 0, -10] with threshold 5 falls at the last two samples. */
  lemma Boundary(x: seq<real>)
    requires x == [10.0, 0.0, -10.0]
    ensures StepForwardSpikes(x, 5.0) == [0, -1, -1]
  {
    assert Run(x, 5.0, 1) == StepState(10.0, [0]);
    assert Run(x, 5.0, 2) == StepState(5.0, [0, -1]);
    assert Run(x, 5.0, 3) == StepState(0.0, [0, -1, -1]);
  }

  /** The loop as step_forward_algorithm.py writes it: the up-spike branch adds the undefined
      name `thresholds`, so the first up-spike raises instead of moving the base. */
  function RunAsWritten(s: seq<real>, threshold: real, t: nat): (r: Result<StepState>)
    requires |s| > 0 && t <= |s|
    ensures r.Ok? ==> |r.value.spikes| == t
    decreases t
  {
    if t == 0 then Ok(StepState(s[0], []))
    else
      match RunAsWritten(s, threshold, t - 1)
      case Err(e) => Err(e)
      case Ok(prev) =>
        var e := Classify(s[t - 1], prev.base, threshold);
        if e == 1 then Err(UndefinedName)
        else Ok(StepState(Moved(prev.base, e, threshold), prev.spikes + [e]))
  }

  /** step_forward as written: fails on an empty signal, raises a NameError on
      the first up-spike, and otherwise agrees with the intended spike train. */
  function StepForwardAsWritten(s: seq<real>, threshold: real): (r: Result<seq<int>>)
    ensures |s| == 0 <==> r == Err(IndexOutOfRange)
    ensures |s| > 0 && Count(StepForwardSpikes(s, threshold), 1) == 0 ==> r == Ok(StepForwardSpikes(s, threshold))
    ensures |s| > 0 && Count(StepForwardSpikes(s, threshold), 1) > 0 ==> r == Err(UndefinedName)
  {
    if |s| == 0 then Err(IndexOutOfRange)
    else
      AsWrittenFailsOnRise(s, threshold, |s|);
      match RunAsWritten(s, threshold, |s|)
      case Err(e) => Err(e)
      case Ok(st) => Ok(st.spikes)
  }

  /** The code as written agrees with the intended loop until the first
      up-spike, and fails with a NameError once there is one. */
  lemma {:induction false} AsWrittenFailsOnRise(s: seq<real>, threshold: real, t: nat)
    requires |s| > 0 && t <= |s|
    ensures Count(Run(s, threshold, t).spikes, 1) == 0 ==> RunAsWritten(s, threshold, t) == Ok(Run(s, threshold, t))
    ensures Count(Run(s, threshold, t).spikes, 1) > 0 ==> RunAsWritten(s, threshold, t) == Err(UndefinedName)
  {
    if t > 0 {
      AsWrittenFailsOnRise(s, threshold, t - 1);
      var st := Run(s, threshold, t);
      assert st.spikes[..t - 1] == Run(s, threshold, t - 1).spikes;
    }
  }

  /** On the tests' ramp the code as written raises a NameError, while the
      intended loop gives [0, 0, 1, 1, 0, 0, -1]. */
  lemma RampAsWritten(x: seq<real>)
    requires x == [0.0, 2.0, 4.0, 6.0, 4.0, 2.0, 0.0]
    ensures StepForwardAsWritten(x, 2.0) == Err(UndefinedName)
    ensures StepForwardSpikes(x, 2.0) == [0, 0, 1, 1, 0, 0, -1]
  {
    Ramp(x);
    AsWrittenFailsOnRise(x, 2.0, |x|);
    assert Count(StepForwardSpikes(x, 2.0), 1) > 0 by {
      assert StepForwardSpikes(x, 2.0)[..6] == [0, 0, 1, 1, 0, 0];
      assert StepForwardSpikes(x, 2.0)[..6][..5] == [0, 0, 1, 1, 0];
      assert StepForwardSpikes(x, 2.0)[..6][..5][..4] == [0, 0, 1, 1];
    }
  }
}
