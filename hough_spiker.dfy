/** hough_spiker: the Hough Spiker Algorithm. */
module HoughSpikerAlgorithm {
  import opened Common
  import opened Deconvolution

  /** Rejects an empty signal and a window longer than the signal (a window
      of exactly the signal's length is accepted); a negative window then
      fails in boxcar, and a window of zero has the outcome
      EmptyWindowOutcome describes. Otherwise scans positions
      0 .. n - w, spiking where every residual sample of the window reaches the
      kernel value 1, and subtracting the kernel there. */
  method HoughSpiker(signal: seq<real>, window: int) returns (r: Result<seq<int>>)
    ensures |signal| == 0 ==> r == Err(EmptySignal)
    ensures |signal| > 0 && window > |signal| ==> r == Err(WindowTooLong)
    ensures |signal| > 0 && window < 0 ==> r == Err(NegativeWindow)
    ensures |signal| > 0 && window == 0 ==> r == EmptyWindowOutcome(Hough, |signal|)
    ensures |signal| > 0 && 1 <= window <= |signal| ==> r == Ok(Encode(Hough, signal, window))
  {
    if |signal| == 0 {
      return Err(EmptySignal);
    }
    if window > |signal| {
      return Err(WindowTooLong);
    }
    if window < 0 {
      return Err(NegativeWindow);
    }
    if window == 0 {
      return EmptyWindowOutcome(Hough, |signal|);
    }
    var spikes := HoughScan(signal, window);
    return Ok(spikes);
  }

  /** The scan itself, on a residual copy of the signal. */
  method HoughScan(signal: seq<real>, w: nat) returns (s: seq<int>)
    requires 1 <= w <= |signal|
    ensures s == Encode(Hough, signal, w)
  {
    var n := |signal|;
    var spikes := new int[n](_ => 0);
    var residual := new real[n](i requires 0 <= i < n => signal[i]);
    var t := 0;
    while t < n - w + 1
      invariant 0 <= t <= n - w + 1
      invariant residual[..] == Scan(Hough, signal, w, t).residual
      invariant spikes[..] == Scan(Hough, signal, w, t).spikes
    {
      HoughVisit(residual, spikes, signal, w, t);
      t := t + 1;
    }
    return spikes[..];
  }

  /** One iteration of the scan: count the residual samples of the window at
      t that reach 1, and when all of them do, spike and subtract the kernel. */
  method HoughVisit(residual: array<real>, spikes: array<int>, signal: seq<real>, w: nat, t: nat)
    modifies residual, spikes
    requires 1 <= w <= |signal| && t < |signal| - w + 1
    requires residual[..] == Scan(Hough, signal, w, t).residual
    requires spikes[..] == Scan(Hough, signal, w, t).spikes
    ensures residual[..] == Scan(Hough, signal, w, t + 1).residual
    ensures spikes[..] == Scan(Hough, signal, w, t + 1).spikes
  {
    ScanAdvance(Hough, signal, w, t);
    var segment := residual[t..t + w];
    var matchCount := MatchCount(segment);
    if matchCount == w {
      SubtractKernel(residual, t, t + w);
      spikes[t] := 1;
    }
  }

  /** A signal whose length equals the window is accepted and has only
      position 0 examined. */
  lemma WindowOfSignalLength(x: seq<real>, p: nat)
    requires |x| > 0 && 0 < p < |x|
    ensures Starts(Hough, |x|, |x|) == 1
    ensures Encode(Hough, x, |x|)[p] == 0
  {
    TailSilent(Hough, x, |x|, p);
  }

  /** An all-zero signal yields no spike. */
  lemma ZeroSignal(x: seq<real>, w: nat, p: nat)
    requires 1 <= w <= |x| && p < |x|
    requires forall i :: 0 <= i < |x| ==> x[i] == 0.0
    ensures Encode(Hough, x, w)[p] == 0
  {
    HoughSilentBelowOne(x, w, p);
  }

  /** After one subtraction the next windows reach into the zero tail, so only the first position spikes. */
  lemma FiveSamples(x: seq<real>)
    requires x == [5.0, 5.0, 5.0, 0.0, 0.0]
    ensures Encode(Hough, x, 3) == [1, 0, 0, 0, 0]
  {
    var r, s := x, seq(5, _ => 0);
    assert Matches(Hough, r[0..3]) by {
      assert r[0] == 5.0 && r[1] == 5.0 && r[2] == 5.0;
      assert r[0..3] == [5.0, 5.0, 5.0];
    }
    r, s := Lower(r, 0, 3), s[0 := 1];
    assert Scan(Hough, x, 3, 1) == State(r, s);
    assert !Matches(Hough, r[1..4]) by {
      assert r[1] == 4.0 && r[2] == 4.0 && r[3] == 0.0;
      assert r[1..4] == [4.0, 4.0, 0.0];
      assert [4.0, 4.0, 0.0][2] < 1.0;
    }
    assert Scan(Hough, x, 3, 2) == State(r, s);
    assert !Matches(Hough, r[2..5]) by {
      assert r[2] == 4.0 && r[3] == 0.0 && r[4] == 0.0;
      assert r[2..5] == [4.0, 0.0, 0.0];
      assert [4.0, 0.0, 0.0][1] < 1.0;
    }
    assert Scan(Hough, x, 3, 3) == State(r, s);
    assert s == [1, 0, 0, 0, 0];
  }

  /** The first three positions of the documented example: only the window
      starting at the 4.1 sample dominates the kernel. */
  lemma DocExamplePrefix(x: seq<real>)
    requires x == [0.1, 0.2, 4.1, 1.0, 3.0, 0.3, 0.1]
    ensures Scan(Hough, x, 3, 3) ==
      State([0.1, 0.2, 3.1, 0.0, 2.0, 0.3, 0.1],
        [0, 0, 1, 0, 0, 0, 0])
  {
    var s := seq(7, _ => 0);
    assert Scan(Hough, x, 3, 0) == State(x, s);
    ScanSkip(Hough, x, 3, 0, x, s) by {
      assert x[0..3] == [0.1, 0.2, 4.1];
      assert x[0..3][0] < 1.0;
    }
    ScanSkip(Hough, x, 3, 1, x, s) by {
      assert x[1..4] == [0.2, 4.1, 1.0];
      assert x[1..4][0] < 1.0;
    }
    ScanMatch(Hough, x, 3, 2, x, s) by {
      assert x[2..5] == [4.1, 1.0, 3.0];
    }
    assert Lower(x, 2, 5) == [0.1, 0.2, 3.1, 0.0, 2.0, 0.3, 0.1];
    assert s[2 := 1] == [0, 0, 1, 0, 0, 0, 0];
  }

  /** The documented example: a single spike, at the 4.1 sample. */
  lemma DocExample(x: seq<real>)
    requires x == [0.1, 0.2, 4.1, 1.0, 3.0, 0.3, 0.1]
    ensures Encode(Hough, x, 3) == [0, 0, 1, 0, 0, 0, 0]
  {
    var r := [0.1, 0.2, 3.1, 0.0, 2.0, 0.3, 0.1];
    var s := [0, 0, 1, 0, 0, 0, 0];
    DocExamplePrefix(x);
    ScanSkip(Hough, x, 3, 3, r, s) by {
      assert r[3..6] == [0.0, 2.0, 0.3];
      assert r[3..6][0] < 1.0;
    }
    ScanSkip(Hough, x, 3, 4, r, s) by {
      assert r[4..7] == [2.0, 0.3, 0.1];
      assert r[4..7][1] < 1.0;
    }
  }

  /** A three-sample window all of whose samples reach the kernel value matches. */
  lemma KernelReached(seg: seq<real>, a: real, b: real, c: real)
    requires seg == [a, b, c] && a >= 1.0 && b >= 1.0 && c >= 1.0
    ensures Matches(Hough, seg)
  {
  }

  /** The rise-and-fall example after position 0: the window at position 0 stays below the kernel. */
  lemma RiseAndFallAt1(x: seq<real>)
    requires x == [0.0, 1.5, 2.0, 3.0, 4.0, 5.0, 6.0, 3.0, 2.0, 1.0, 0.0]
    ensures Scan(Hough, x, 3, 1) ==
      State([0.0, 1.5, 2.0, 3.0, 4.0, 5.0, 6.0, 3.0, 2.0, 1.0, 0.0],
        seq(11, _ => 0))
  {
    assert Scan(Hough, x, 3, 0) == State([0.0, 1.5, 2.0, 3.0, 4.0, 5.0, 6.0, 3.0, 2.0, 1.0, 0.0], seq(11, _ => 0));
    RiseAndFallStep1();
    ScanSkip(Hough, x, 3, 0, [0.0, 1.5, 2.0, 3.0, 4.0, 5.0, 6.0, 3.0, 2.0, 1.0, 0.0], seq(11, _ => 0)) by {
      assert [0.0, 1.5, 2.0][0] < 1.0;
    }
  }

  /** The rise-and-fall example after position 1: position 1 spikes. */
  lemma RiseAndFallAt2(x: seq<real>)
    requires x == [0.0, 1.5, 2.0, 3.0, 4.0, 5.0, 6.0, 3.0, 2.0, 1.0, 0.0]
    ensures Scan(Hough, x, 3, 2) ==
      State([0.0, 0.5, 1.0, 2.0, 4.0, 5.0, 6.0, 3.0, 2.0, 1.0, 0.0],
        [0, 1, 0, 0, 0, 0, 0, 0, 0, 0, 0])
  {
    RiseAndFallAt1(x);
    RiseAndFallStep1();
    KernelReached([0.0, 1.5, 2.0, 3.0, 4.0, 5.0, 6.0, 3.0, 2.0, 1.0, 0.0][1..4], 1.5, 2.0, 3.0);
    ScanMatchTo(Hough, x, 3, 1, 4, [0.0, 1.5, 2.0, 3.0, 4.0, 5.0, 6.0, 3.0, 2.0, 1.0, 0.0], seq(11, _ => 0),
      [0.0, 0.5, 1.0, 2.0, 4.0, 5.0, 6.0, 3.0, 2.0, 1.0, 0.0], [0, 1, 0, 0, 0, 0, 0, 0, 0, 0, 0]);
  }

  /** The rise-and-fall example after position 2: position 2 spikes. */
  lemma RiseAndFallAt3(x: seq<real>)
    requires x == [0.0, 1.5, 2.0, 3.0, 4.0, 5.0, 6.0, 3.0, 2.0, 1.0, 0.0]
    ensures Scan(Hough, x, 3, 3) ==
      State([0.0, 0.5, 0.0, 1.0, 3.0, 5.0, 6.0, 3.0, 2.0, 1.0, 0.0],
        [0, 1, 1, 0, 0, 0, 0, 0, 0, 0, 0])
  {
    RiseAndFallAt2(x);
    RiseAndFallStep2();
    KernelReached([0.0, 0.5, 1.0, 2.0, 4.0, 5.0, 6.0, 3.0, 2.0, 1.0, 0.0][2..5], 1.0, 2.0, 4.0);
    ScanMatchTo(Hough, x, 3, 2, 5, [0.0, 0.5, 1.0, 2.0, 4.0, 5.0, 6.0, 3.0, 2.0, 1.0, 0.0], [0, 1, 0, 0, 0, 0, 0, 0, 0, 0, 0],
      [0.0, 0.5, 0.0, 1.0, 3.0, 5.0, 6.0, 3.0, 2.0, 1.0, 0.0], [0, 1, 1, 0, 0, 0, 0, 0, 0, 0, 0]);
  }

  /** The rise-and-fall example after position 3: position 3 spikes. */
  lemma RiseAndFallAt4(x: seq<real>)
    requires x == [0.0, 1.5, 2.0, 3.0, 4.0, 5.0, 6.0, 3.0, 2.0, 1.0, 0.0]
    ensures Scan(Hough, x, 3, 4) ==
      State([0.0, 0.5, 0.0, 0.0, 2.0, 4.0, 6.0, 3.0, 2.0, 1.0, 0.0],
        [0, 1, 1, 1, 0, 0, 0, 0, 0, 0, 0])
  {
    RiseAndFallAt3(x);
    RiseAndFallStep3();
    KernelReached([0.0, 0.5, 0.0, 1.0, 3.0, 5.0, 6.0, 3.0, 2.0, 1.0, 0.0][3..6], 1.0, 3.0, 5.0);
    ScanMatchTo(Hough, x, 3, 3, 6, [0.0, 0.5, 0.0, 1.0, 3.0, 5.0, 6.0, 3.0, 2.0, 1.0, 0.0], [0, 1, 1, 0, 0, 0, 0, 0, 0, 0, 0],
      [0.0, 0.5, 0.0, 0.0, 2.0, 4.0, 6.0, 3.0, 2.0, 1.0, 0.0], [0, 1, 1, 1, 0, 0, 0, 0, 0, 0, 0]);
  }

  /** The rise-and-fall example after position 4: position 4 spikes. */
  lemma RiseAndFallAt5(x: seq<real>)
    requires x == [0.0, 1.5, 2.0, 3.0, 4.0, 5.0, 6.0, 3.0, 2.0, 1.0, 0.0]
    ensures Scan(Hough, x, 3, 5) ==
      State([0.0, 0.5, 0.0, 0.0, 1.0, 3.0, 5.0, 3.0, 2.0, 1.0, 0.0],
        [0, 1, 1, 1, 1, 0, 0, 0, 0, 0, 0])
  {
    RiseAndFallAt4(x);
    RiseAndFallStep4();
    KernelReached([0.0, 0.5, 0.0, 0.0, 2.0, 4.0, 6.0, 3.0, 2.0, 1.0, 0.0][4..7], 2.0, 4.0, 6.0);
    ScanMatchTo(Hough, x, 3, 4, 7, [0.0, 0.5, 0.0, 0.0, 2.0, 4.0, 6.0, 3.0, 2.0, 1.0, 0.0], [0, 1, 1, 1, 0, 0, 0, 0, 0, 0, 0],
      [0.0, 0.5, 0.0, 0.0, 1.0, 3.0, 5.0, 3.0, 2.0, 1.0, 0.0], [0, 1, 1, 1, 1, 0, 0, 0, 0, 0, 0]);
  }

  /** The rise-and-fall example after position 5: position 5 spikes. */
  lemma RiseAndFallAt6(x: seq<real>)
    requires x == [0.0, 1.5, 2.0, 3.0, 4.0, 5.0, 6.0, 3.0, 2.0, 1.0, 0.0]
    ensures Scan(Hough, x, 3, 6) ==
      State([0.0, 0.5, 0.0, 0.0, 1.0, 2.0, 4.0, 2.0, 2.0, 1.0, 0.0],
        [0, 1, 1, 1, 1, 1, 0, 0, 0, 0, 0])
  {
    RiseAndFallAt5(x);
    RiseAndFallStep5();
    KernelReached([0.0, 0.5, 0.0, 0.0, 1.0, 3.0, 5.0, 3.0, 2.0, 1.0, 0.0][5..8], 3.0, 5.0, 3.0);
    ScanMatchTo(Hough, x, 3, 5, 8, [0.0, 0.5, 0.0, 0.0, 1.0, 3.0, 5.0, 3.0, 2.0, 1.0, 0.0], [0, 1, 1, 1, 1, 0, 0, 0, 0, 0, 0],
      [0.0, 0.5, 0.0, 0.0, 1.0, 2.0, 4.0, 2.0, 2.0, 1.0, 0.0], [0, 1, 1, 1, 1, 1, 0, 0, 0, 0, 0]);
  }

  /** The rise-and-fall example after position 6: position 6 spikes. */
  lemma RiseAndFallAt7(x: seq<real>)
    requires x == [0.0, 1.5, 2.0, 3.0, 4.0, 5.0, 6.0, 3.0, 2.0, 1.0, 0.0]
    ensures Scan(Hough, x, 3, 7) ==
      State([0.0, 0.5, 0.0, 0.0, 1.0, 2.0, 3.0, 1.0, 1.0, 1.0, 0.0],
        [0, 1, 1, 1, 1, 1, 1, 0, 0, 0, 0])
  {
    RiseAndFallAt6(x);
    RiseAndFallStep6();
    KernelReached([0.0, 0.5, 0.0, 0.0, 1.0, 2.0, 4.0, 2.0, 2.0, 1.0, 0.0][6..9], 4.0, 2.0, 2.0);
    ScanMatchTo(Hough, x, 3, 6, 9, [0.0, 0.5, 0.0, 0.0, 1.0, 2.0, 4.0, 2.0, 2.0, 1.0, 0.0], [0, 1, 1, 1, 1, 1, 0, 0, 0, 0, 0],
      [0.0, 0.5, 0.0, 0.0, 1.0, 2.0, 3.0, 1.0, 1.0, 1.0, 0.0], [0, 1, 1, 1, 1, 1, 1, 0, 0, 0, 0]);
  }

  /** The rise-and-fall example after position 7: position 7 spikes. */
  lemma RiseAndFallAt8(x: seq<real>)
    requires x == [0.0, 1.5, 2.0, 3.0, 4.0, 5.0, 6.0, 3.0, 2.0, 1.0, 0.0]
    ensures Scan(Hough, x, 3, 8) ==
      State([0.0, 0.5, 0.0, 0.0, 1.0, 2.0, 3.0, 0.0, 0.0, 0.0, 0.0],
        [0, 1, 1, 1, 1, 1, 1, 1, 0, 0, 0])
  {
    RiseAndFallAt7(x);
    RiseAndFallStep7();
    KernelReached([0.0, 0.5, 0.0, 0.0, 1.0, 2.0, 3.0, 1.0, 1.0, 1.0, 0.0][7..10], 1.0, 1.0, 1.0);
    ScanMatchTo(Hough, x, 3, 7, 10, [0.0, 0.5, 0.0, 0.0, 1.0, 2.0, 3.0, 1.0, 1.0, 1.0, 0.0], [0, 1, 1, 1, 1, 1, 1, 0, 0, 0, 0],
      [0.0, 0.5, 0.0, 0.0, 1.0, 2.0, 3.0, 0.0, 0.0, 0.0, 0.0], [0, 1, 1, 1, 1, 1, 1, 1, 0, 0, 0]);
  }

  /** The rise-and-fall example after position 8: the window at position 8 stays below the kernel. */
  lemma RiseAndFallAt9(x: seq<real>)
    requires x == [0.0, 1.5, 2.0, 3.0, 4.0, 5.0, 6.0, 3.0, 2.0, 1.0, 0.0]
    ensures Scan(Hough, x, 3, 9) ==
      State([0.0, 0.5, 0.0, 0.0, 1.0, 2.0, 3.0, 0.0, 0.0, 0.0, 0.0],
        [0, 1, 1, 1, 1, 1, 1, 1, 0, 0, 0])
  {
    RiseAndFallAt8(x);
    RiseAndFallStep8();
    ScanSkip(Hough, x, 3, 8, [0.0, 0.5, 0.0, 0.0, 1.0, 2.0, 3.0, 0.0, 0.0, 0.0, 0.0], [0, 1, 1, 1, 1, 1, 1, 1, 0, 0, 0]) by {
      assert [0.0, 0.0, 0.0][0] < 1.0;
    }
  }

  /** The basic-functionality signal [0, 1.5, 2, 3, 4, 5, 6, 3, 2, 1, 0] with
      window 3 spikes at positions 1 to 7, where every window reaches the kernel;
      the subtractions leave zeros at position 8. */
  lemma RiseAndFall(x: seq<real>)
    requires x == [0.0, 1.5, 2.0, 3.0, 4.0, 5.0, 6.0, 3.0, 2.0, 1.0, 0.0]
    ensures Encode(Hough, x, 3) == [0, 1, 1, 1, 1, 1, 1, 1, 0, 0, 0]
  {
    RiseAndFallAt9(x);
    assert Starts(Hough, |x|, 3) == 9;
  }
}
