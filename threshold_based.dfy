/** threshold_based_representation: first differences of the signal are
    compared with a threshold of their mean plus factor times their
    population standard deviation. The square root is a parameter. */
module ThresholdBasedAlgorithm {
  import opened Common

  /** The facts about the square root the proofs use. */
  ghost predicate IsSqrt(sqrt: real -> real)
  {
    forall x :: x >= 0.0 ==> sqrt(x) >= 0.0 && sqrt(x) * sqrt(x) == x
  }

  /** np.diff(signal[1:], prepend=signal[0]): the n - 1 first differences. */
  function Diffs(s: seq<real>): (v: seq<real>)
    requires |s| > 0
    ensures |v| == |s| - 1
    ensures forall i :: 0 <= i < |v| ==> v[i] == s[i + 1] - s[i]
  {
    seq(|s| - 1, i requires 0 <= i < |s| - 1 => s[i + 1] - s[i])
  }

  /** The squared deviations of v from its mean. */
  function SquaredDeviations(v: seq<real>): (sq: seq<real>)
    requires |v| > 0
    ensures |sq| == |v|
    ensures forall i :: 0 <= i < |sq| ==> sq[i] >= 0.0
  {
    var m := Mean(v);
    seq(|v|, i requires 0 <= i < |v| => Square(v[i] - m))
  }

  function Square(x: real): (y: real)
    ensures y >= 0.0
  {
    if x < 0.0 then MulMonotone(0.0, -x, -x); x * x else MulMonotone(0.0, x, x); x * x
  }

  /** np.std: the square root of the mean squared deviation from the mean,
      never negative. */
  function PopulationStd(v: seq<real>, sqrt: real -> real): (sd: real)
    requires |v| > 0
    ensures IsSqrt(sqrt) ==> sd >= 0.0
  {
    var sq := SquaredDeviations(v);
    assert IsSqrt(sqrt) ==> sqrt(Mean(sq)) >= 0.0 by {
      assert Mean(sq) >= 0.0;
    }
    sqrt(Mean(sq))
  }

  /** np.mean(variation) + factor * np.std(variation), over the n - 1 differences
      only: never below the mean difference for a non-negative factor. */
  function Threshold(s: seq<real>, factor: real, sqrt: real -> real): (th: real)
    requires |s| > 1
    ensures IsSqrt(sqrt) && factor >= 0.0 ==> th >= Mean(Diffs(s))
  {
    var v := Diffs(s);
    var sd := PopulationStd(v, sqrt);
    RaisedByScaled(Mean(v), factor, sd);
    Mean(v) + factor * sd
  }

  lemma RaisedByScaled(m: real, factor: real, sd: real)
    ensures factor >= 0.0 && sd >= 0.0 ==> m + factor * sd >= m
  {
    if factor >= 0.0 && sd >= 0.0 {
      MulMonotone(0.0, factor, sd);
    }
  }

  /** np.insert(variation, 0, variation[1]): position 0 repeats the second difference. */
  function Variation(s: seq<real>): (v: seq<real>)
    requires |s| > 2
    ensures |v| == |s|
    ensures v[0] == s[2] - s[1]
    ensures forall i :: 1 <= i < |s| ==> v[i] == s[i] - s[i - 1]
  {
    [Diffs(s)[1]] + Diffs(s)
  }

  /** The mark of one variation: -1 below -threshold (written last, so it
      wins), otherwise +1 above threshold, otherwise 0. */
  function Mark(x: real, threshold: real): (m: int)
    ensures -1 <= m <= 1
  {
    if x < -threshold then -1 else if x > threshold then 1 else 0
  }

  /** Each mark means what the comparisons say: -1 exactly below -threshold,
      +1 exactly above threshold and not below -threshold, 0 exactly inside
      the band. */
  lemma MarkMeaning(x: real, threshold: real)
    ensures Mark(x, threshold) == -1 <==> x < -threshold
    ensures Mark(x, threshold) == 1 <==> -threshold <= x && x > threshold
    ensures Mark(x, threshold) == 0 <==> -threshold <= x <= threshold
  {
  }

  /** threshold_based_representation: an empty signal fails its check; a
      signal of one or two samples has no variation[1] to insert. */
  function ThresholdBasedRepresentation(s: seq<real>, factor: real, sqrt: real -> real): (r: Result<seq<int>>)
    ensures r == Err(EmptySignal) <==> |s| == 0
    ensures r == Err(IndexOutOfRange) <==> 1 <= |s| <= 2
    ensures r.Ok? <==> |s| > 2
    ensures r.Ok? ==> |r.value| == |s| && IsTernary(r.value)
  {
    if |s| == 0 then Err(EmptySignal)
    else if |s| <= 2 then Err(IndexOutOfRange)
    else
      var v, th := Variation(s), Threshold(s, factor, sqrt);
      Ok(seq(|s|, i requires 0 <= i < |s| => Mark(v[i], th)))
  }

  /** Both masked writes, in their order: -1 exactly where the variation is
      below -threshold, +1 exactly where it is above threshold and not below -threshold. */
  lemma SpikeRule(s: seq<real>, factor: real, sqrt: real -> real, i: nat)
    requires |s| > 2 && i < |s|
    ensures var r, v, th := ThresholdBasedRepresentation(s, factor, sqrt).value, Variation(s), Threshold(s, factor, sqrt);
      (r[i] == -1 <==> v[i] < -th) && (r[i] == 1 <==> v[i] > th && v[i] >= -th)
  {
  }

  /** The inserted copy makes the first output repeat the third. */
  lemma FirstRepeatsThird(s: seq<real>, factor: real, sqrt: real -> real)
    requires |s| > 2
    ensures ThresholdBasedRepresentation(s, factor, sqrt).value[0] == ThresholdBasedRepresentation(s, factor, sqrt).value[2]
  {
  }

  lemma SquareLess(a: real, b: real)
    requires 0.0 <= a < b
    ensures a * a < b * b
  {
    calc {
      a * a;
    <= { MulMonotone(a, b, a); }
      b * a;
    < { MulStrict(a, b, b); }
      b * b;
    }
  }

  /** Non-negative numbers with equal squares are equal. */
  lemma SquareRootUnique(y: real, c: real)
    requires y >= 0.0 && c >= 0.0 && y * y == c * c
    ensures y == c
  {
    if y < c {
      SquareLess(y, c);
      assert false;
    } else if c < y {
      SquareLess(c, y);
      assert false;
    }
  }

  lemma SqrtZero(sqrt: real -> real)
    requires IsSqrt(sqrt)
    ensures sqrt(0.0) == 0.0
  {
    var y := sqrt(0.0);
    assert y >= 0.0 && y * y == 0.0;
    SquareRootUnique(y, 0.0);
  }

  lemma SqrtOne(sqrt: real -> real)
    requires IsSqrt(sqrt)
    ensures sqrt(1.0) == 1.0
  {
    var y := sqrt(1.0);
    assert y >= 0.0 && y * y == 1.0;
    SquareRootUnique(y, 1.0);
  }

  /** A constant signal has no variation and a zero threshold, and the strict
      comparisons leave it silent. */
  lemma ConstantSilent(s: seq<real>, c: real, factor: real, sqrt: real -> real)
    requires IsSqrt(sqrt)
    requires |s| > 2 && forall i :: 0 <= i < |s| ==> s[i] == c
    ensures forall i :: 0 <= i < |s| ==> ThresholdBasedRepresentation(s, factor, sqrt).value[i] == 0
  {
    var v := Diffs(s);
    MeanConstant(v, 0.0);
    MeanConstant(SquaredDeviations(v), 0.0);
    SqrtZero(sqrt);
    assert Threshold(s, factor, sqrt) == 0.0;
  }

  lemma PeakDiffsSum(v: seq<real>)
    requires v == [1.0, 1.0, 1.0, -1.0, -1.0, -1.0]
    ensures Sum(v) == 0.0
  {
    assert [1.0, 1.0][..1] == [1.0];
    assert [1.0, 1.0, 1.0][..2] == [1.0, 1.0];
    assert [1.0, 1.0, 1.0, -1.0][..3] == [1.0, 1.0, 1.0];
    assert [1.0, 1.0, 1.0, -1.0, -1.0][..4] == [1.0, 1.0, 1.0, -1.0];
    assert v[..5] == [1.0, 1.0, 1.0, -1.0, -1.0];
    assert Sum([1.0]) == 1.0;
    assert Sum([1.0, 1.0]) == 2.0;
    assert Sum([1.0, 1.0, 1.0]) == 3.0;
    assert Sum([1.0, 1.0, 1.0, -1.0]) == 2.0;
    assert Sum([1.0, 1.0, 1.0, -1.0, -1.0]) == 1.0;
  }

  /** Differences of magnitude 1 with mean 0 have standard deviation 1. */
  lemma StdOfUnitSteps(v: seq<real>, sqrt: real -> real)
    requires IsSqrt(sqrt)
    requires |v| > 0 && Mean(v) == 0.0
    requires forall i :: 0 <= i < |v| ==> v[i] == 1.0 || v[i] == -1.0
    ensures PopulationStd(v, sqrt) == 1.0
  {
    var sq := SquaredDeviations(v);
    forall i | 0 <= i < |sq| ensures sq[i] == 1.0 {
      assert v[i] == 1.0 || v[i] == -1.0;
    }
    MeanConstant(sq, 1.0);
    SqrtOne(sqrt);
  }

  /** The differences of [0, 1, 2, 3, 2, 1, 0] have mean 0 and standard deviation 1. */
  lemma PeakStatistics(x: seq<real>, sqrt: real -> real)
    requires IsSqrt(sqrt)
    requires x == [0.0, 1.0, 2.0, 3.0, 2.0, 1.0, 0.0]
    ensures Mean(Diffs(x)) == 0.0
    ensures PopulationStd(Diffs(x), sqrt) == 1.0
    ensures Variation(x) == [1.0, 1.0, 1.0, 1.0, -1.0, -1.0, -1.0]
  {
    PeakDiffs(x);
    var v := Diffs(x);
    PeakDiffsSum(v);
    StdOfUnitSteps(v, sqrt);
    PeakVariation(x);
  }

  lemma PeakDiffs(x: seq<real>)
    requires x == [0.0, 1.0, 2.0, 3.0, 2.0, 1.0, 0.0]
    ensures Diffs(x) == [1.0, 1.0, 1.0, -1.0, -1.0, -1.0]
  {
  }

  lemma PeakVariation(x: seq<real>)
    requires |x| > 2 && Diffs(x) == [1.0, 1.0, 1.0, -1.0, -1.0, -1.0]
    ensures Variation(x) == [1.0, 1.0, 1.0, 1.0, -1.0, -1.0, -1.0]
  {
    assert Variation(x) == [Diffs(x)[1]] + Diffs(x);
  }

  /** On [0, 1, 2, 3, 2, 1, 0] the threshold is the factor itself. */
  lemma PeakThreshold(x: seq<real>, sqrt: real -> real, factor: real)
    requires IsSqrt(sqrt)
    requires x == [0.0, 1.0, 2.0, 3.0, 2.0, 1.0, 0.0]
    ensures Threshold(x, factor, sqrt) == factor
    ensures Variation(x) == [1.0, 1.0, 1.0, 1.0, -1.0, -1.0, -1.0]
  {
    PeakStatistics(x, sqrt);
  }

  /** On [0, 1, 2, 3, 2, 1, 0] each sample is marked by its variation of 1 or -1. */
  lemma PeakMarks(x: seq<real>, sqrt: real -> real, factor: real)
    requires IsSqrt(sqrt)
    requires x == [0.0, 1.0, 2.0, 3.0, 2.0, 1.0, 0.0]
    ensures ThresholdBasedRepresentation(x, factor, sqrt)
      == Ok([Mark(1.0, factor), Mark(1.0, factor), Mark(1.0, factor), Mark(1.0, factor),
             Mark(-1.0, factor), Mark(-1.0, factor), Mark(-1.0, factor)])
  {
    PeakThreshold(x, sqrt, factor);
    var r := ThresholdBasedRepresentation(x, factor, sqrt).value;
    assert forall i :: 0 <= i < 7 ==> r[i] == Mark(Variation(x)[i], factor);
    PeakMarksOf(r, Variation(x), factor);
  }

  lemma PeakMarksOf(r: seq<int>, v: seq<real>, th: real)
    requires v == [1.0, 1.0, 1.0, 1.0, -1.0, -1.0, -1.0]
    requires |r| == 7 && forall i :: 0 <= i < 7 ==> r[i] == Mark(v[i], th)
    ensures r == [Mark(1.0, th), Mark(1.0, th), Mark(1.0, th), Mark(1.0, th),
                  Mark(-1.0, th), Mark(-1.0, th), Mark(-1.0, th)]
  {
  }

  /** With factor 1 and factor 2 the peak stays silent; with factor 0.1 it
      rises four times and falls three times. */
  lemma PeakExamples(x: seq<real>, sqrt: real -> real)
    requires IsSqrt(sqrt)
    requires x == [0.0, 1.0, 2.0, 3.0, 2.0, 1.0, 0.0]
    ensures ThresholdBasedRepresentation(x, 1.0, sqrt) == Ok([0, 0, 0, 0, 0, 0, 0])
    ensures ThresholdBasedRepresentation(x, 2.0, sqrt) == Ok([0, 0, 0, 0, 0, 0, 0])
    ensures ThresholdBasedRepresentation(x, 0.1, sqrt) == Ok([1, 1, 1, 1, -1, -1, -1])
  {
    PeakMarks(x, sqrt, 1.0);
    PeakMarks(x, sqrt, 2.0);
    PeakMarks(x, sqrt, 0.1);
  }

  /** The documented example [0.1, 0.3, 0.4, 0.2, 0.5, 0.6]: its differences. */
  lemma DocDiffs(x: seq<real>)
    requires x == [0.1, 0.3, 0.4, 0.2, 0.5, 0.6]
    ensures Diffs(x) == [0.2, 0.1, -0.2, 0.3, 0.1]
  {
  }

  lemma DocVariation(x: seq<real>)
    requires |x| > 2 && Diffs(x) == [0.2, 0.1, -0.2, 0.3, 0.1]
    ensures Variation(x) == [0.1, 0.2, 0.1, -0.2, 0.3, 0.1]
  {
    assert Variation(x) == [Diffs(x)[1]] + Diffs(x);
  }

  /** The differences of the documented example have mean 0.1. */
  lemma DocDiffsMean(v: seq<real>)
    requires v == [0.2, 0.1, -0.2, 0.3, 0.1]
    ensures Mean(v) == 0.1
  {
    assert [0.2, 0.1][..1] == [0.2];
    assert [0.2, 0.1, -0.2][..2] == [0.2, 0.1];
    assert [0.2, 0.1, -0.2, 0.3][..3] == [0.2, 0.1, -0.2];
    assert v[..4] == [0.2, 0.1, -0.2, 0.3];
    assert Sum([0.2]) == 0.2;
    assert Sum([0.2, 0.1]) == 0.3;
    assert Sum([0.2, 0.1, -0.2]) == 0.1;
    assert Sum([0.2, 0.1, -0.2, 0.3]) == 0.4;
    assert Sum(v) == 0.5;
  }

  /** Their squared deviations from 0.1 have mean 0.028. */
  lemma DocDeviationsMean(v: seq<real>)
    requires v == [0.2, 0.1, -0.2, 0.3, 0.1] && Mean(v) == 0.1
    ensures Mean(SquaredDeviations(v)) == 0.028
  {
    var sq := SquaredDeviations(v);
    assert sq[0] == Square(0.1) == 0.01;
    assert sq[1] == Square(0.0) == 0.0;
    assert sq[2] == Square(-0.3) == 0.09;
    assert sq[3] == Square(0.2) == 0.04;
    assert sq[4] == Square(0.0) == 0.0;
    assert sq == [0.01, 0.0, 0.09, 0.04, 0.0];
    DocSquaresSum(sq);
  }

  lemma DocSquaresSum(sq: seq<real>)
    requires sq == [0.01, 0.0, 0.09, 0.04, 0.0]
    ensures Sum(sq) == 0.14
  {
    assert [0.01, 0.0][..1] == [0.01];
    assert [0.01, 0.0, 0.09][..2] == [0.01, 0.0];
    assert [0.01, 0.0, 0.09, 0.04][..3] == [0.01, 0.0, 0.09];
    assert sq[..4] == [0.01, 0.0, 0.09, 0.04];
    assert Sum([0.01]) == 0.01;
    assert Sum([0.01, 0.0]) == 0.01;
    assert Sum([0.01, 0.0, 0.09]) == 0.1;
    assert Sum([0.01, 0.0, 0.09, 0.04]) == 0.14;
  }

  /** A non-negative root of a square below b * b is below b. */
  lemma RootBelow(y: real, b: real)
    requires y >= 0.0 && b > 0.0 && y * y < b * b
    ensures y < b
  {
    if b < y {
      SquareLess(b, y);
      assert false;
    }
  }

  /** On the documented example the threshold lies in [0.1, 0.2): the mean
      difference 0.1 plus half a standard deviation sqrt(0.028) < 0.2. */
  lemma DocThreshold(x: seq<real>, sqrt: real -> real)
    requires IsSqrt(sqrt)
    requires x == [0.1, 0.3, 0.4, 0.2, 0.5, 0.6]
    ensures 0.1 <= Threshold(x, 0.5, sqrt) < 0.2
  {
    DocDiffs(x);
    var v := Diffs(x);
    DocDiffsMean(v);
    DocDeviationsMean(v);
    DocStd(v, sqrt);
  }

  /** The differences of the documented example have a standard deviation below 0.2. */
  lemma DocStd(v: seq<real>, sqrt: real -> real)
    requires IsSqrt(sqrt)
    requires v == [0.2, 0.1, -0.2, 0.3, 0.1] && Mean(SquaredDeviations(v)) == 0.028
    ensures 0.0 <= PopulationStd(v, sqrt) < 0.2
  {
    var sd := sqrt(0.028);
    assert sd >= 0.0 && sd * sd == 0.028;
    RootBelow(sd, 0.2);
  }

  lemma DocMarksOf(r: seq<int>, v: seq<real>, th: real)
    requires v == [0.1, 0.2, 0.1, -0.2, 0.3, 0.1] && 0.1 <= th < 0.2
    requires |r| == 6 && forall i :: 0 <= i < 6 ==> r[i] == Mark(v[i], th)
    ensures r == [0, 1, 0, -1, 1, 0]
  {
  }

  /** The documented call with factor 0.5 gives [0, 1, 0, -1, 1, 0]. */
  lemma DocExample(x: seq<real>, sqrt: real -> real)
    requires IsSqrt(sqrt)
    requires x == [0.1, 0.3, 0.4, 0.2, 0.5, 0.6]
    ensures ThresholdBasedRepresentation(x, 0.5, sqrt) == Ok([0, 1, 0, -1, 1, 0])
  {
    DocThreshold(x, sqrt);
    DocDiffs(x);
    DocVariation(x);
    var r := ThresholdBasedRepresentation(x, 0.5, sqrt).value;
    assert forall i :: 0 <= i < 6 ==> r[i] == Mark(Variation(x)[i], Threshold(x, 0.5, sqrt));
    DocMarksOf(r, Variation(x), Threshold(x, 0.5, sqrt));
  }
}
