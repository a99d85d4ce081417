/** modified_hough_spiker: the Modified Hough Spiker Algorithm. */
module ModifiedHoughSpikerAlgorithm {
  import opened Common
  import opened Deconvolution

  /** Rejects an empty signal and a window longer than the signal; a
      negative window then fails in boxcar, and a window of zero has the
      outcome EmptyWindowOutcome describes. Otherwise visits every position t, cuts the window at the end of the signal, and
      spikes where the residual falls short of the kernel by at most
      `threshold`, subtracting the cut kernel there. */
  method ModifiedHoughSpiker(signal: seq<real>, window: int, threshold: real) returns (r: Result<seq<int>>)
    ensures |signal| == 0 ==> r == Err(EmptySignal)
    ensures |signal| > 0 && window > |signal| ==> r == Err(WindowTooLong)
    ensures |signal| > 0 && window < 0 ==> r == Err(NegativeWindow)
    ensures |signal| > 0 && window == 0 ==> r == EmptyWindowOutcome(ModifiedHough(threshold), |signal|)
    ensures |signal| > 0 && 1 <= window <= |signal| ==> r == Ok(Encode(ModifiedHough(threshold), signal, window))
  {
    if |signal| == 0 {
      return Err(EmptySignal);
    }
    if window > |signal| {
      return Err(WindowTooLong);
    }
    if window < 0 {
      return Err(NegativeWindow);
    }
    if window == 0 {
      return EmptyWindowOutcome(ModifiedHough(threshold), |signal|);
    }
    var spikes := MhsaScan(signal, window, threshold);
    return Ok(spikes);
  }

  /** The scan itself, on a residual copy of the signal. */
  method MhsaScan(signal: seq<real>, w: nat, threshold: real) returns (s: seq<int>)
    requires 1 <= w <= |signal|
    ensures s == Encode(ModifiedHough(threshold), signal, w)
  {
    var n := |signal|;
    var rule := ModifiedHough(threshold);
    var spikes := new int[n](_ => 0);
    var residual := new real[n](i requires 0 <= i < n => signal[i]);
    var t := 0;
    while t < n
      invariant 0 <= t <= n
      invariant residual[..] == Scan(rule, signal, w, t).residual
      invariant spikes[..] == Scan(rule, signal, w, t).spikes
    {
      MhsaVisit(residual, spikes, signal, w, threshold, t);
      t := t + 1;
    }
    return spikes[..];
  }

  /** One iteration of the scan: the window at t, cut at the end of the
      signal, spikes when the residual falls short of it by at most
      `threshold`, and the cut kernel is then subtracted. */
  method MhsaVisit(residual: array<real>, spikes: array<int>, signal: seq<real>, w: nat, threshold: real, t: nat)
    modifies residual, spikes
    requires 1 <= w <= |signal| && t < |signal|
    requires residual[..] == Scan(ModifiedHough(threshold), signal, w, t).residual
    requires spikes[..] == Scan(ModifiedHough(threshold), signal, w, t).spikes
    ensures residual[..] == Scan(ModifiedHough(threshold), signal, w, t + 1).residual
    ensures spikes[..] == Scan(ModifiedHough(threshold), signal, w, t + 1).spikes
  {
    ScanAdvance(ModifiedHough(threshold), signal, w, t);
    var endIndex := Min(t + w, |signal|);
    var error := Shortfall(residual[t..endIndex]);
    if error <= threshold {
      SubtractKernel(residual, t, endIndex);
      spikes[t] := 1;
    }
  }

  /** The shortfalls of the windows the five-sample example examines after its first spike. */
  lemma FiveSampleShortfalls()
    ensures Shortfall([5.0, 5.0, 5.0]) == 0.0
    ensures Shortfall([4.0, 4.0, 0.0]) == 1.0
    ensures Shortfall([3.0, -1.0, 0.0]) == 3.0
    ensures Shortfall([-1.0, 0.0]) == 3.0
    ensures Shortfall([0.0]) == 1.0
  {
    assert [5.0, 5.0][..1] == [5.0];
    assert [5.0, 5.0, 5.0][..2] == [5.0, 5.0];
    assert Shortfall([5.0]) == 0.0;
    assert Shortfall([5.0, 5.0]) == 0.0;
    assert [4.0, 4.0][..1] == [4.0];
    assert [4.0, 4.0, 0.0][..2] == [4.0, 4.0];
    assert Shortfall([4.0]) == 0.0;
    assert Shortfall([4.0, 4.0]) == 0.0;
    assert [3.0, -1.0][..1] == [3.0];
    assert [3.0, -1.0, 0.0][..2] == [3.0, -1.0];
    assert Shortfall([3.0]) == 0.0;
    assert Shortfall([3.0, -1.0]) == 2.0;
    assert [-1.0, 0.0][..1] == [-1.0];
    assert Shortfall([-1.0]) == 2.0;
  }

  /** The first position of the five-sample example spikes. */
  lemma FiveSamplesFirst(x: seq<real>)
    requires x == [5.0, 5.0, 5.0, 0.0, 0.0]
    ensures Scan(ModifiedHough(1.0), x, 3, 1) == State([4.0, 4.0, 4.0, 0.0, 0.0], [1, 0, 0, 0, 0])
  {
    var s := seq(5, _ => 0);
    assert Scan(ModifiedHough(1.0), x, 3, 0) == State(x, s);
    ScanMatch(ModifiedHough(1.0), x, 3, 0, x, s) by {
      assert x[0..3] == [5.0, 5.0, 5.0];
      FiveSampleShortfalls();
    }
    assert Lower(x, 0, 3) == [4.0, 4.0, 4.0, 0.0, 0.0];
    assert s[0 := 1] == [1, 0, 0, 0, 0];
  }

  /** The first two positions of the five-sample example both spike. */
  lemma FiveSamplesPrefix(x: seq<real>)
    requires x == [5.0, 5.0, 5.0, 0.0, 0.0]
    ensures Scan(ModifiedHough(1.0), x, 3, 2) == State([4.0, 3.0, 3.0, -1.0, 0.0], [1, 1, 0, 0, 0])
  {
    var r, s := [4.0, 4.0, 4.0, 0.0, 0.0], [1, 0, 0, 0, 0];
    FiveSamplesFirst(x);
    ScanMatch(ModifiedHough(1.0), x, 3, 1, r, s) by {
      assert r[1..4] == [4.0, 4.0, 0.0];
      FiveSampleShortfalls();
    }
    assert Lower(r, 1, 4) == [4.0, 3.0, 3.0, -1.0, 0.0];
    assert s[1 := 1] == [1, 1, 0, 0, 0];
  }

  /** The cut window of length one at the end falls short by exactly the threshold, so the last position spikes. */
  lemma FiveSamples(x: seq<real>)
    requires x == [5.0, 5.0, 5.0, 0.0, 0.0]
    ensures Encode(ModifiedHough(1.0), x, 3) == [1, 1, 0, 0, 1]
  {
    var rule := ModifiedHough(1.0);
    var r, s := [4.0, 3.0, 3.0, -1.0, 0.0], [1, 1, 0, 0, 0];
    FiveSamplesPrefix(x);
    FiveSampleShortfalls();
    ScanSkip(rule, x, 3, 2, r, s) by {
      assert r[2..5] == [3.0, -1.0, 0.0];
    }
    ScanSkip(rule, x, 3, 3, r, s) by {
      assert r[3..5] == [-1.0, 0.0];
    }
    ScanMatch(rule, x, 3, 4, r, s) by {
      assert r[4..5] == [0.0];
    }
    assert s[4 := 1] == [1, 1, 0, 0, 1];
  }

  /** Every window of a zero signal falls short by its full length, more than the threshold. */
  lemma ZeroSignal(x: seq<real>)
    requires x == [0.0, 0.0, 0.0, 0.0]
    ensures Encode(ModifiedHough(0.5), x, 3) == [0, 0, 0, 0]
  {
    var r, s := x, seq(4, _ => 0);
    assert !Matches(ModifiedHough(0.5), r[0..3]) by {
      assert r[0] == 0.0 && r[1] == 0.0 && r[2] == 0.0;
      assert r[0..3] == [0.0, 0.0, 0.0];
      assert [0.0, 0.0][..1] == [0.0];
      assert [0.0, 0.0, 0.0][..2] == [0.0, 0.0];
      assert Shortfall([0.0]) == 1.0;
      assert Shortfall([0.0, 0.0]) == 2.0;
      assert Shortfall([0.0, 0.0, 0.0]) == 3.0;
    }
    assert Scan(ModifiedHough(0.5), x, 3, 1) == State(r, s);
    assert !Matches(ModifiedHough(0.5), r[1..4]) by {
      assert r[1] == 0.0 && r[2] == 0.0 && r[3] == 0.0;
      assert r[1..4] == [0.0, 0.0, 0.0];
      assert [0.0, 0.0][..1] == [0.0];
      assert [0.0, 0.0, 0.0][..2] == [0.0, 0.0];
      assert Shortfall([0.0]) == 1.0;
      assert Shortfall([0.0, 0.0]) == 2.0;
      assert Shortfall([0.0, 0.0, 0.0]) == 3.0;
    }
    assert Scan(ModifiedHough(0.5), x, 3, 2) == State(r, s);
    assert !Matches(ModifiedHough(0.5), r[2..4]) by {
      assert r[2] == 0.0 && r[3] == 0.0;
      assert r[2..4] == [0.0, 0.0];
      assert [0.0, 0.0][..1] == [0.0];
      assert Shortfall([0.0]) == 1.0;
      assert Shortfall([0.0, 0.0]) == 2.0;
    }
    assert Scan(ModifiedHough(0.5), x, 3, 3) == State(r, s);
    assert !Matches(ModifiedHough(0.5), r[3..4]) by {
      assert r[3] == 0.0;
      assert r[3..4] == [0.0];
      assert Shortfall([0.0]) == 1.0;
    }
    assert Scan(ModifiedHough(0.5), x, 3, 4) == State(r, s);
    assert s == [0, 0, 0, 0];
  }

  /** The MHSA scan of the rise-and-fall signal [0, 1.5, 2, 3, 4, 5, 6, 3, 2, 1, 0]
      with window 3 and threshold 2: MhsaRiseAndFallStep{t} gives the window
      examined at position t and, where t spikes, the residual and the spikes
      after the kernel is subtracted there (position 8, which does not spike,
      is folded into step 9). */
  lemma MhsaRiseAndFallStep0()
    ensures [0.0, 1.5, 2.0, 3.0, 4.0, 5.0, 6.0, 3.0, 2.0, 1.0, 0.0][0..3] == [0.0, 1.5, 2.0]
    ensures Lower([0.0, 1.5, 2.0, 3.0, 4.0, 5.0, 6.0, 3.0, 2.0, 1.0, 0.0], 0, 3) ==
      [-1.0, 0.5, 1.0, 3.0, 4.0, 5.0, 6.0, 3.0, 2.0, 1.0, 0.0]
    ensures seq(11, _ => 0)[0 := 1] == [1, 0, 0, 0, 0, 0, 0, 0, 0, 0, 0]
  {
  }

  lemma MhsaRiseAndFallStep1()
    ensures [-1.0, 0.5, 1.0, 3.0, 4.0, 5.0, 6.0, 3.0, 2.0, 1.0, 0.0][1..4] == [0.5, 1.0, 3.0]
    ensures Lower([-1.0, 0.5, 1.0, 3.0, 4.0, 5.0, 6.0, 3.0, 2.0, 1.0, 0.0], 1, 4) ==
      [-1.0, -0.5, 0.0, 2.0, 4.0, 5.0, 6.0, 3.0, 2.0, 1.0, 0.0]
    ensures [1, 0, 0, 0, 0, 0, 0, 0, 0, 0, 0][1 := 1] == [1, 1, 0, 0, 0, 0, 0, 0, 0, 0, 0]
  {
  }

  lemma MhsaRiseAndFallStep2()
    ensures [-1.0, -0.5, 0.0, 2.0, 4.0, 5.0, 6.0, 3.0, 2.0, 1.0, 0.0][2..5] == [0.0, 2.0, 4.0]
    ensures Lower([-1.0, -0.5, 0.0, 2.0, 4.0, 5.0, 6.0, 3.0, 2.0, 1.0, 0.0], 2, 5) ==
      [-1.0, -0.5, -1.0, 1.0, 3.0, 5.0, 6.0, 3.0, 2.0, 1.0, 0.0]
    ensures [1, 1, 0, 0, 0, 0, 0, 0, 0, 0, 0][2 := 1] == [1, 1, 1, 0, 0, 0, 0, 0, 0, 0, 0]
  {
  }

  lemma MhsaRiseAndFallStep3()
    ensures [-1.0, -0.5, -1.0, 1.0, 3.0, 5.0, 6.0, 3.0, 2.0, 1.0, 0.0][3..6] == [1.0, 3.0, 5.0]
    ensures Lower([-1.0, -0.5, -1.0, 1.0, 3.0, 5.0, 6.0, 3.0, 2.0, 1.0, 0.0], 3, 6) ==
      [-1.0, -0.5, -1.0, 0.0, 2.0, 4.0, 6.0, 3.0, 2.0, 1.0, 0.0]
    ensures [1, 1, 1, 0, 0, 0, 0, 0, 0, 0, 0][3 := 1] == [1, 1, 1, 1, 0, 0, 0, 0, 0, 0, 0]
  {
  }

  lemma MhsaRiseAndFallStep4()
    ensures [-1.0, -0.5, -1.0, 0.0, 2.0, 4.0, 6.0, 3.0, 2.0, 1.0, 0.0][4..7] == [2.0, 4.0, 6.0]
    ensures Lower([-1.0, -0.5, -1.0, 0.0, 2.0, 4.0, 6.0, 3.0, 2.0, 1.0, 0.0], 4, 7) ==
      [-1.0, -0.5, -1.0, 0.0, 1.0, 3.0, 5.0, 3.0, 2.0, 1.0, 0.0]
    ensures [1, 1, 1, 1, 0, 0, 0, 0, 0, 0, 0][4 := 1] == [1, 1, 1, 1, 1, 0, 0, 0, 0, 0, 0]
  {
  }

  lemma MhsaRiseAndFallStep5()
    ensures [-1.0, -0.5, -1.0, 0.0, 1.0, 3.0, 5.0, 3.0, 2.0, 1.0, 0.0][5..8] == [3.0, 5.0, 3.0]
    ensures Lower([-1.0, -0.5, -1.0, 0.0, 1.0, 3.0, 5.0, 3.0, 2.0, 1.0, 0.0], 5, 8) ==
      [-1.0, -0.5, -1.0, 0.0, 1.0, 2.0, 4.0, 2.0, 2.0, 1.0, 0.0]
    ensures [1, 1, 1, 1, 1, 0, 0, 0, 0, 0, 0][5 := 1] == [1, 1, 1, 1, 1, 1, 0, 0, 0, 0, 0]
  {
  }

  lemma MhsaRiseAndFallStep6()
    ensures [-1.0, -0.5, -1.0, 0.0, 1.0, 2.0, 4.0, 2.0, 2.0, 1.0, 0.0][6..9] == [4.0, 2.0, 2.0]
    ensures Lower([-1.0, -0.5, -1.0, 0.0, 1.0, 2.0, 4.0, 2.0, 2.0, 1.0, 0.0], 6, 9) ==
      [-1.0, -0.5, -1.0, 0.0, 1.0, 2.0, 3.0, 1.0, 1.0, 1.0, 0.0]
    ensures [1, 1, 1, 1, 1, 1, 0, 0, 0, 0, 0][6 := 1] == [1, 1, 1, 1, 1, 1, 1, 0, 0, 0, 0]
  {
  }

  lemma MhsaRiseAndFallStep7()
    ensures [-1.0, -0.5, -1.0, 0.0, 1.0, 2.0, 3.0, 1.0, 1.0, 1.0, 0.0][7..10] == [1.0, 1.0, 1.0]
    ensures Lower([-1.0, -0.5, -1.0, 0.0, 1.0, 2.0, 3.0, 1.0, 1.0, 1.0, 0.0], 7, 10) ==
      [-1.0, -0.5, -1.0, 0.0, 1.0, 2.0, 3.0, 0.0, 0.0, 0.0, 0.0]
    ensures [1, 1, 1, 1, 1, 1, 1, 0, 0, 0, 0][7 := 1] == [1, 1, 1, 1, 1, 1, 1, 1, 0, 0, 0]
  {
  }

  lemma MhsaRiseAndFallStep9()
    ensures [-1.0, -0.5, -1.0, 0.0, 1.0, 2.0, 3.0, 0.0, 0.0, 0.0, 0.0][8..11] == [0.0, 0.0, 0.0]
    ensures [-1.0, -0.5, -1.0, 0.0, 1.0, 2.0, 3.0, 0.0, 0.0, 0.0, 0.0][9..11] == [0.0, 0.0]
    ensures Lower([-1.0, -0.5, -1.0, 0.0, 1.0, 2.0, 3.0, 0.0, 0.0, 0.0, 0.0], 9, 11) ==
      [-1.0, -0.5, -1.0, 0.0, 1.0, 2.0, 3.0, 0.0, 0.0, -1.0, -1.0]
    ensures [1, 1, 1, 1, 1, 1, 1, 1, 0, 0, 0][9 := 1] == [1, 1, 1, 1, 1, 1, 1, 1, 0, 1, 0]
  {
  }

  lemma MhsaRiseAndFallStep10()
    ensures [-1.0, -0.5, -1.0, 0.0, 1.0, 2.0, 3.0, 0.0, 0.0, -1.0, -1.0][10..11] == [-1.0]
    ensures Lower([-1.0, -0.5, -1.0, 0.0, 1.0, 2.0, 3.0, 0.0, 0.0, -1.0, -1.0], 10, 11) ==
      [-1.0, -0.5, -1.0, 0.0, 1.0, 2.0, 3.0, 0.0, 0.0, -1.0, -2.0]
    ensures [1, 1, 1, 1, 1, 1, 1, 1, 0, 1, 0][10 := 1] == [1, 1, 1, 1, 1, 1, 1, 1, 0, 1, 1]
  {
  }

  /** The rise-and-fall example up to position 2 under MHSA: every window
      falls short of the kernel by at most 1, so all three spike. */
  lemma RiseAndFallTo3(x: seq<real>)
    requires x == [0.0, 1.5, 2.0, 3.0, 4.0, 5.0, 6.0, 3.0, 2.0, 1.0, 0.0]
    ensures Scan(ModifiedHough(2.0), x, 3, 3) ==
      State([-1.0, -0.5, -1.0, 1.0, 3.0, 5.0, 6.0, 3.0, 2.0, 1.0, 0.0],
        [1, 1, 1, 0, 0, 0, 0, 0, 0, 0, 0])
  {
    var rule := ModifiedHough(2.0);
    assert Scan(rule, x, 3, 0) == State([0.0, 1.5, 2.0, 3.0, 4.0, 5.0, 6.0, 3.0, 2.0, 1.0, 0.0], seq(11, _ => 0));
    MhsaRiseAndFallStep0();
    MhsaRiseAndFallStep1();
    MhsaRiseAndFallStep2();
    ScanMatch(rule, x, 3, 0, [0.0, 1.5, 2.0, 3.0, 4.0, 5.0, 6.0, 3.0, 2.0, 1.0, 0.0], seq(11, _ => 0)) by {
      ShortfallSums(0.0, 1.5, 2.0);
    }
    ScanMatch(rule, x, 3, 1, [-1.0, 0.5, 1.0, 3.0, 4.0, 5.0, 6.0, 3.0, 2.0, 1.0, 0.0], [1, 0, 0, 0, 0, 0, 0, 0, 0, 0, 0]) by {
      ShortfallSums(0.5, 1.0, 3.0);
    }
    ScanMatch(rule, x, 3, 2, [-1.0, -0.5, 0.0, 2.0, 4.0, 5.0, 6.0, 3.0, 2.0, 1.0, 0.0], [1, 1, 0, 0, 0, 0, 0, 0, 0, 0, 0]) by {
      ShortfallSums(0.0, 2.0, 4.0);
    }
  }

  /** The rise-and-fall example up to position 5 under MHSA: positions 3 to 5 spike. */
  lemma RiseAndFallTo6(x: seq<real>)
    requires x == [0.0, 1.5, 2.0, 3.0, 4.0, 5.0, 6.0, 3.0, 2.0, 1.0, 0.0]
    ensures Scan(ModifiedHough(2.0), x, 3, 6) ==
      State([-1.0, -0.5, -1.0, 0.0, 1.0, 2.0, 4.0, 2.0, 2.0, 1.0, 0.0],
        [1, 1, 1, 1, 1, 1, 0, 0, 0, 0, 0])
  {
    var rule := ModifiedHough(2.0);
    RiseAndFallTo3(x);
    MhsaRiseAndFallStep3();
    MhsaRiseAndFallStep4();
    MhsaRiseAndFallStep5();
    ScanMatch(rule, x, 3, 3, [-1.0, -0.5, -1.0, 1.0, 3.0, 5.0, 6.0, 3.0, 2.0, 1.0, 0.0], [1, 1, 1, 0, 0, 0, 0, 0, 0, 0, 0]) by {
      ShortfallSums(1.0, 3.0, 5.0);
    }
    ScanMatch(rule, x, 3, 4, [-1.0, -0.5, -1.0, 0.0, 2.0, 4.0, 6.0, 3.0, 2.0, 1.0, 0.0], [1, 1, 1, 1, 0, 0, 0, 0, 0, 0, 0]) by {
      ShortfallSums(2.0, 4.0, 6.0);
    }
    ScanMatch(rule, x, 3, 5, [-1.0, -0.5, -1.0, 0.0, 1.0, 3.0, 5.0, 3.0, 2.0, 1.0, 0.0], [1, 1, 1, 1, 1, 0, 0, 0, 0, 0, 0]) by {
      ShortfallSums(3.0, 5.0, 3.0);
    }
  }

  /** The rise-and-fall example up to position 8 under MHSA: positions 6 and 7
      spike, and the three zeros left at position 8 fall short by 3. */
  lemma RiseAndFallTo9(x: seq<real>)
    requires x == [0.0, 1.5, 2.0, 3.0, 4.0, 5.0, 6.0, 3.0, 2.0, 1.0, 0.0]
    ensures Scan(ModifiedHough(2.0), x, 3, 9) ==
      State([-1.0, -0.5, -1.0, 0.0, 1.0, 2.0, 3.0, 0.0, 0.0, 0.0, 0.0],
        [1, 1, 1, 1, 1, 1, 1, 1, 0, 0, 0])
  {
    var rule := ModifiedHough(2.0);
    RiseAndFallTo6(x);
    MhsaRiseAndFallStep6();
    MhsaRiseAndFallStep7();
    MhsaRiseAndFallStep9();
    ScanMatch(rule, x, 3, 6, [-1.0, -0.5, -1.0, 0.0, 1.0, 2.0, 4.0, 2.0, 2.0, 1.0, 0.0], [1, 1, 1, 1, 1, 1, 0, 0, 0, 0, 0]) by {
      ShortfallSums(4.0, 2.0, 2.0);
    }
    ScanMatch(rule, x, 3, 7, [-1.0, -0.5, -1.0, 0.0, 1.0, 2.0, 3.0, 1.0, 1.0, 1.0, 0.0], [1, 1, 1, 1, 1, 1, 1, 0, 0, 0, 0]) by {
      ShortfallSums(1.0, 1.0, 1.0);
    }
    ScanSkip(rule, x, 3, 8, [-1.0, -0.5, -1.0, 0.0, 1.0, 2.0, 3.0, 0.0, 0.0, 0.0, 0.0], [1, 1, 1, 1, 1, 1, 1, 1, 0, 0, 0]) by {
      ShortfallSums(0.0, 0.0, 0.0);
    }
  }

  /** The basic-functionality signal [0, 1.5, 2, 3, 4, 5, 6, 3, 2, 1, 0] with
      window 3 and threshold 2.0 spikes everywhere but position 8: the windows
      cut at the end fall short by exactly the threshold. */
  lemma RiseAndFall(x: seq<real>)
    requires x == [0.0, 1.5, 2.0, 3.0, 4.0, 5.0, 6.0, 3.0, 2.0, 1.0, 0.0]
    ensures Encode(ModifiedHough(2.0), x, 3) == [1, 1, 1, 1, 1, 1, 1, 1, 0, 1, 1]
  {
    var rule := ModifiedHough(2.0);
    RiseAndFallTo9(x);
    MhsaRiseAndFallStep9();
    MhsaRiseAndFallStep10();
    ScanMatch(rule, x, 3, 9, [-1.0, -0.5, -1.0, 0.0, 1.0, 2.0, 3.0, 0.0, 0.0, 0.0, 0.0], [1, 1, 1, 1, 1, 1, 1, 1, 0, 0, 0]) by {
      ShortfallSums(0.0, 0.0, 0.0);
    }
    ScanMatch(rule, x, 3, 10, [-1.0, -0.5, -1.0, 0.0, 1.0, 2.0, 3.0, 0.0, 0.0, -1.0, -1.0], [1, 1, 1, 1, 1, 1, 1, 1, 0, 1, 0]) by {
      ShortfallSums(-1.0, 0.0, 0.0);
    }
    assert Starts(rule, |x|, 3) == 11;
  }
}
