/** ben_spiker: Ben's Spiker Algorithm on a one-dimensional signal. */
module BenSpikerAlgorithm {
  import opened Common
  import opened Deconvolution

  /** Rejects an empty signal and a window that is not shorter than the
      signal; a negative window then fails in boxcar, and a window of zero
      has the outcome EmptyWindowOutcome describes. Otherwise scans positions
      0 .. n - w, spiking where the residual window is at least `threshold`
      closer to the kernel than to zero, and subtracting the kernel there. */
  method BenSpiker(signal: seq<real>, window: int, threshold: real) returns (r: Result<seq<int>>)
    ensures |signal| == 0 ==> r == Err(EmptySignal)
    ensures |signal| > 0 && window >= |signal| ==> r == Err(WindowTooLong)
    ensures |signal| > 0 && window < 0 ==> r == Err(NegativeWindow)
    ensures |signal| > 0 && window == 0 ==> r == EmptyWindowOutcome(Bsa(threshold), |signal|)
    ensures |signal| > 0 && 1 <= window < |signal| ==> r == Ok(Encode(Bsa(threshold), signal, window))
  {
    if |signal| == 0 {
      return Err(EmptySignal);
    }
    if window >= |signal| {
      return Err(WindowTooLong);
    }
    if window < 0 {
      return Err(NegativeWindow);
    }
    if window == 0 {
      return EmptyWindowOutcome(Bsa(threshold), |signal|);
    }
    var spikes := BsaScan(signal, window, threshold);
    return Ok(spikes);
  }

  /** The scan itself, on a residual copy of the signal. */
  method BsaScan(signal: seq<real>, w: nat, threshold: real) returns (s: seq<int>)
    requires 1 <= w < |signal|
    ensures s == Encode(Bsa(threshold), signal, w)
  {
    var n := |signal|;
    var rule := Bsa(threshold);
    var spikes := new int[n](_ => 0);
    var residual := new real[n](i requires 0 <= i < n => signal[i]);
    var t := 0;
    while t < n - w + 1
      invariant 0 <= t <= n - w + 1
      invariant residual[..] == Scan(rule, signal, w, t).residual
      invariant spikes[..] == Scan(rule, signal, w, t).spikes
    {
      BsaVisit(residual, spikes, signal, w, threshold, t);
      t := t + 1;
    }
    return spikes[..];
  }

  /** One iteration of the scan: compare the residual window at t with the
      kernel and with zero, and on a spike subtract the kernel there. */
  method BsaVisit(residual: array<real>, spikes: array<int>, signal: seq<real>, w: nat, threshold: real, t: nat)
    modifies residual, spikes
    requires 1 <= w < |signal| && t < |signal| - w + 1
    requires residual[..] == Scan(Bsa(threshold), signal, w, t).residual
    requires spikes[..] == Scan(Bsa(threshold), signal, w, t).spikes
    ensures residual[..] == Scan(Bsa(threshold), signal, w, t + 1).residual
    ensures spikes[..] == Scan(Bsa(threshold), signal, w, t + 1).spikes
  {
    ScanAdvance(Bsa(threshold), signal, w, t);
    var segment := residual[t..t + w];
    var error1 := KernelDistance(segment);
    var error2 := Magnitude(segment);
    if error1 <= error2 - threshold {
      SubtractKernel(residual, t, t + w);
      spikes[t] := 1;
    }
  }

  /** The three windows the scan of [5, 5, 5, 0, 0] meets, compared with the
      kernel and with zero at threshold 1. */
  lemma FiveSampleWindows()
    ensures Matches(Bsa(1.0), [5.0, 5.0, 5.0])
    ensures Matches(Bsa(1.0), [4.0, 4.0, 0.0])
    ensures !Matches(Bsa(1.0), [3.0, -1.0, 0.0])
  {
    WindowSums(5.0, 5.0, 5.0);
    WindowSums(4.0, 4.0, 0.0);
    WindowSums(3.0, -1.0, 0.0);
  }

  /** A full first window spikes, and so does the next window after one subtraction. */
  lemma FiveSamples(x: seq<real>)
    requires x == [5.0, 5.0, 5.0, 0.0, 0.0]
    ensures Encode(Bsa(1.0), x, 3) == [1, 1, 0, 0, 0]
  {
    FiveSampleWindows();
    var r, s := x, seq(5, _ => 0);
    assert r[0..3] == [5.0, 5.0, 5.0];
    r, s := Lower(r, 0, 3), s[0 := 1];
    assert Scan(Bsa(1.0), x, 3, 1) == State(r, s);
    var seg := r[1..4];
    assert seg[0] == 4.0 && seg[1] == 4.0 && seg[2] == 0.0;
    assert seg == [4.0, 4.0, 0.0];
    r, s := Lower(r, 1, 4), s[1 := 1];
    assert Scan(Bsa(1.0), x, 3, 2) == State(r, s);
    seg := r[2..5];
    assert seg[0] == 3.0 && seg[1] == -1.0 && seg[2] == 0.0;
    assert seg == [3.0, -1.0, 0.0];
    assert Scan(Bsa(1.0), x, 3, 3) == State(r, s);
    assert s == [1, 1, 0, 0, 0];
  }

  /** The rise-and-fall example up to position 2: position 0 is not close
      enough to the kernel, positions 1 and 2 spike. */
  lemma RiseAndFallTo3(x: seq<real>)
    requires x == [0.0, 1.5, 2.0, 3.0, 4.0, 5.0, 6.0, 3.0, 2.0, 1.0, 0.0]
    ensures Scan(Bsa(2.0), x, 3, 3) ==
      State([0.0, 0.5, 0.0, 1.0, 3.0, 5.0, 6.0, 3.0, 2.0, 1.0, 0.0],
        [0, 1, 1, 0, 0, 0, 0, 0, 0, 0, 0])
  {
    var rule := Bsa(2.0);
    assert Scan(rule, x, 3, 0) == State([0.0, 1.5, 2.0, 3.0, 4.0, 5.0, 6.0, 3.0, 2.0, 1.0, 0.0], seq(11, _ => 0));
    RiseAndFallStep1();
    RiseAndFallStep2();
    ScanSkip(rule, x, 3, 0, [0.0, 1.5, 2.0, 3.0, 4.0, 5.0, 6.0, 3.0, 2.0, 1.0, 0.0], seq(11, _ => 0)) by {
      WindowSums(0.0, 1.5, 2.0);
    }
    ScanMatch(rule, x, 3, 1, [0.0, 1.5, 2.0, 3.0, 4.0, 5.0, 6.0, 3.0, 2.0, 1.0, 0.0], seq(11, _ => 0)) by {
      WindowSums(1.5, 2.0, 3.0);
    }
    ScanMatch(rule, x, 3, 2, [0.0, 0.5, 1.0, 2.0, 4.0, 5.0, 6.0, 3.0, 2.0, 1.0, 0.0], [0, 1, 0, 0, 0, 0, 0, 0, 0, 0, 0]) by {
      WindowSums(1.0, 2.0, 4.0);
    }
  }

  /** The rise-and-fall example up to position 5: positions 3 to 5 spike. */
  lemma RiseAndFallTo6(x: seq<real>)
    requires x == [0.0, 1.5, 2.0, 3.0, 4.0, 5.0, 6.0, 3.0, 2.0, 1.0, 0.0]
    ensures Scan(Bsa(2.0), x, 3, 6) ==
      State([0.0, 0.5, 0.0, 0.0, 1.0, 2.0, 4.0, 2.0, 2.0, 1.0, 0.0],
        [0, 1, 1, 1, 1, 1, 0, 0, 0, 0, 0])
  {
    var rule := Bsa(2.0);
    RiseAndFallTo3(x);
    RiseAndFallStep3();
    RiseAndFallStep4();
    RiseAndFallStep5();
    ScanMatch(rule, x, 3, 3, [0.0, 0.5, 0.0, 1.0, 3.0, 5.0, 6.0, 3.0, 2.0, 1.0, 0.0], [0, 1, 1, 0, 0, 0, 0, 0, 0, 0, 0]) by {
      WindowSums(1.0, 3.0, 5.0);
    }
    ScanMatch(rule, x, 3, 4, [0.0, 0.5, 0.0, 0.0, 2.0, 4.0, 6.0, 3.0, 2.0, 1.0, 0.0], [0, 1, 1, 1, 0, 0, 0, 0, 0, 0, 0]) by {
      WindowSums(2.0, 4.0, 6.0);
    }
    ScanMatch(rule, x, 3, 5, [0.0, 0.5, 0.0, 0.0, 1.0, 3.0, 5.0, 3.0, 2.0, 1.0, 0.0], [0, 1, 1, 1, 1, 0, 0, 0, 0, 0, 0]) by {
      WindowSums(3.0, 5.0, 3.0);
    }
  }

  /** The basic-functionality signal [0, 1.5, 2, 3, 4, 5, 6, 3, 2, 1, 0] with
      window 3 and threshold 2 spikes at positions 1 to 7; the zeros that reach
      position 8 are farther from the kernel than from zero. */
  lemma RiseAndFall(x: seq<real>)
    requires x == [0.0, 1.5, 2.0, 3.0, 4.0, 5.0, 6.0, 3.0, 2.0, 1.0, 0.0]
    ensures Encode(Bsa(2.0), x, 3) == [0, 1, 1, 1, 1, 1, 1, 1, 0, 0, 0]
  {
    var rule := Bsa(2.0);
    RiseAndFallTo6(x);
    RiseAndFallStep6();
    RiseAndFallStep7();
    RiseAndFallStep8();
    ScanMatch(rule, x, 3, 6, [0.0, 0.5, 0.0, 0.0, 1.0, 2.0, 4.0, 2.0, 2.0, 1.0, 0.0], [0, 1, 1, 1, 1, 1, 0, 0, 0, 0, 0]) by {
      WindowSums(4.0, 2.0, 2.0);
    }
    ScanMatch(rule, x, 3, 7, [0.0, 0.5, 0.0, 0.0, 1.0, 2.0, 3.0, 1.0, 1.0, 1.0, 0.0], [0, 1, 1, 1, 1, 1, 1, 0, 0, 0, 0]) by {
      WindowSums(1.0, 1.0, 1.0);
    }
    ScanSkip(rule, x, 3, 8, [0.0, 0.5, 0.0, 0.0, 1.0, 2.0, 3.0, 0.0, 0.0, 0.0, 0.0], [0, 1, 1, 1, 1, 1, 1, 1, 0, 0, 0]) by {
      WindowSums(0.0, 0.0, 0.0);
    }
    assert Starts(rule, |x|, 3) == 9;
  }
}
