/** The greedy deconvolution scan shared by Ben's Spiker (BSA), the Hough
    Spiker (HSA) and the Modified Hough Spiker (MHSA) algorithms.

    Each copies the signal into a residual, visits start positions from left to
    right, tests the residual window at the position against a boxcar kernel
    (w ones) and, on a match, subtracts the kernel from the window and records a
    spike at the position. The three algorithms differ only in the match test,
    in which positions they visit and in whether the window is cut at the end of
    the signal; `Rule` names the variant. */
module Deconvolution {
  import opened Common

  datatype Rule =
    | Bsa(threshold: real)            // sum |r - 1| <= sum |r| - threshold
    | Hough                           // every r >= 1, i.e. match_count == w
    | ModifiedHough(threshold: real)  // sum max(1 - r, 0) <= threshold, window cut at the end

  datatype State = State(residual: seq<real>, spikes: seq<int>)

  function Abs(x: real): real { if x < 0.0 then -x else x }

  /** Every sample of the window reaches the kernel value 1. */
  predicate Dominates(seg: seq<real>)
  {
    forall k :: 0 <= k < |seg| ==> seg[k] >= 1.0
  }

  /** error1 of BSA: the distance sum |r - 1| of the window from the kernel. */
  function KernelDistance(seg: seq<real>): (d: real)
    ensures d >= 0.0
  {
    if seg == [] then 0.0 else KernelDistance(seg[..|seg| - 1]) + Abs(seg[|seg| - 1] - 1.0)
  }

  /** error2 of BSA: the magnitude sum |r| of the window. */
  function Magnitude(seg: seq<real>): (m: real)
    ensures m >= 0.0
  {
    if seg == [] then 0.0 else Magnitude(seg[..|seg| - 1]) + Abs(seg[|seg| - 1])
  }

  /** match_count of HSA: how many samples reach the kernel value 1; all of
      them do exactly when the window dominates the kernel. */
  function MatchCount(seg: seq<real>): (c: nat)
    ensures c <= |seg|
    ensures c == |seg| <==> Dominates(seg)
  {
    if seg == [] then 0
    else
      assert forall k :: 0 <= k < |seg| - 1 ==> seg[..|seg| - 1][k] == seg[k];
      MatchCount(seg[..|seg| - 1]) + (if seg[|seg| - 1] >= 1.0 then 1 else 0)
  }

  /** error of MHSA: how far the window falls short of the kernel, sum max(1 - r, 0);
      it is never negative and vanishes exactly when the window dominates the kernel. */
  function Shortfall(seg: seq<real>): (e: real)
    ensures e >= 0.0
    ensures e == 0.0 <==> Dominates(seg)
  {
    if seg == [] then 0.0
    else
      assert forall k :: 0 <= k < |seg| - 1 ==> seg[..|seg| - 1][k] == seg[k];
      Shortfall(seg[..|seg| - 1]) + Max0(1.0 - seg[|seg| - 1])
  }

  /** The error sums of BSA over a window of three samples. */
  lemma WindowSums(a: real, b: real, c: real)
    ensures KernelDistance([a, b, c]) == Abs(a - 1.0) + Abs(b - 1.0) + Abs(c - 1.0)
    ensures Magnitude([a, b, c]) == Abs(a) + Abs(b) + Abs(c)
  {
    assert [a, b, c][..2] == [a, b];
    assert [a, b][..1] == [a];
    assert [a][..0] == [];
    assert KernelDistance([]) == 0.0 && Magnitude([]) == 0.0;
    assert KernelDistance([a]) == Abs(a - 1.0);
    assert Magnitude([a]) == Abs(a);
    assert KernelDistance([a, b]) == Abs(a - 1.0) + Abs(b - 1.0);
    assert Magnitude([a, b]) == Abs(a) + Abs(b);
  }

  /** The MHSA error of a window of three samples and of its cuts to two and one. */
  lemma ShortfallSums(a: real, b: real, c: real)
    ensures Shortfall([a, b, c]) == Max0(1.0 - a) + Max0(1.0 - b) + Max0(1.0 - c)
    ensures Shortfall([a, b]) == Max0(1.0 - a) + Max0(1.0 - b)
    ensures Shortfall([a]) == Max0(1.0 - a)
  {
    assert [a, b, c][..2] == [a, b];
    assert [a, b][..1] == [a];
    assert [a][..0] == [];
    assert Shortfall([a]) == Shortfall([]) + Max0(1.0 - a);
    assert Shortfall([a, b]) == Shortfall([a]) + Max0(1.0 - b);
    assert Shortfall([a, b, c]) == Shortfall([a, b]) + Max0(1.0 - c);
  }

  /** Subtracting the kernel gains at most one unit per sample: |r| - |r - 1| <= 1. */
  lemma {:induction false} GainBound(seg: seq<real>)
    ensures Magnitude(seg) - KernelDistance(seg) <= |seg| as real
  {
    if seg != [] {
      GainBound(seg[..|seg| - 1]);
    }
  }

  /** The match test of each variant on the current residual window. */
  predicate Matches(rule: Rule, seg: seq<real>)
  {
    match rule
    case Bsa(th) => KernelDistance(seg) <= Magnitude(seg) - th
    case Hough => Dominates(seg)
    case ModifiedHough(th) => Shortfall(seg) <= th
  }

  /** HSA matches exactly when match_count reaches the window length; BSA
      never matches above a threshold of the window length, and MHSA never
      below zero, while a window that dominates the kernel always matches MHSA
      at a threshold of zero or more. */
  lemma MatchesMeaning(rule: Rule, seg: seq<real>)
    ensures rule.Hough? ==> (Matches(rule, seg) <==> MatchCount(seg) == |seg|)
    ensures rule.Bsa? && rule.threshold > |seg| as real ==> !Matches(rule, seg)
    ensures rule.ModifiedHough? && rule.threshold < 0.0 ==> !Matches(rule, seg)
    ensures rule.ModifiedHough? && rule.threshold >= 0.0 && Dominates(seg) ==> Matches(rule, seg)
  {
    GainBound(seg);
  }

  /** The number of start positions visited: n - w + 1 for BSA and HSA, every
      position for MHSA. At least one position is visited, every visited BSA
      or HSA window fits in the signal, and all n positions are visited
      exactly under MHSA or for a window of one sample. */
  function Starts(rule: Rule, n: nat, w: nat): (c: nat)
    requires 1 <= w <= n
    ensures 1 <= c <= n
    ensures !rule.ModifiedHough? ==> c - 1 + w <= n
    ensures c == n <==> rule.ModifiedHough? || w == 1
  {
    if rule.ModifiedHough? then n else n - w + 1
  }

  /** The end of the window starting at p, cut at n for MHSA. */
  function WindowEnd(rule: Rule, n: nat, w: nat, p: nat): (e: nat)
    requires 1 <= w <= n && p < Starts(rule, n, w)
    ensures p < e <= n && e <= p + w
    ensures rule.ModifiedHough? ==> e == Min(p + w, n)
    ensures !rule.ModifiedHough? ==> e == p + w
  {
    if rule.ModifiedHough? then Min(p + w, n) else p + w
  }

  /** residual[lo:hi] -= boxcar(hi - lo) */
  function Lower(r: seq<real>, lo: nat, hi: nat): (r': seq<real>)
    requires lo <= hi <= |r|
    ensures |r'| == |r|
    ensures forall i :: 0 <= i < |r| ==> r'[i] == if lo <= i < hi then r[i] - 1.0 else r[i]
  {
    seq(|r|, i requires 0 <= i < |r| => if lo <= i < hi then r[i] - 1.0 else r[i])
  }

  /** The in-place update residual[lo:hi] -= boxcar(hi - lo). */
  method SubtractKernel(residual: array<real>, lo: nat, hi: nat)
    requires lo <= hi <= residual.Length
    modifies residual
    ensures residual[..] == Lower(old(residual[..]), lo, hi)
  {
    forall i | lo <= i < hi {
      residual[i] := residual[i] - 1.0;
    }
  }

  /** The empty window, all boxcar(0) leaves to compare: BSA matches it
      exactly for a threshold of at most 0, HSA always, and MHSA exactly for
      a threshold of at least 0. */
  lemma EmptyWindowMatches(rule: Rule)
    ensures rule.Bsa? ==> (Matches(rule, []) <==> rule.threshold <= 0.0)
    ensures rule.Hough? ==> Matches(rule, [])
    ensures rule.ModifiedHough? ==> (Matches(rule, []) <==> rule.threshold >= 0.0)
  {
  }

  /** The outcome of a scan with a window of zero samples. boxcar(0) is
      empty, so every visited window is empty and the match test is the same
      at every position. MHSA visits positions 0 .. n - 1; BSA and HSA visit
      0 .. n, so a match also writes spikes[n], one past the end. */
  function EmptyWindowOutcome(rule: Rule, n: nat): (r: Result<seq<int>>)
    requires n >= 1
    ensures r.Err? <==> !rule.ModifiedHough? && Matches(rule, [])
    ensures r.Err? ==> r.error == IndexOutOfRange
    ensures r.Ok? ==> |r.value| == n && forall t :: 0 <= t < n ==> r.value[t] == if Matches(rule, []) then 1 else 0
  {
    match rule
    case Bsa(th) => if th <= 0.0 then Err(IndexOutOfRange) else Ok(seq(n, _ => 0))
    case Hough => Err(IndexOutOfRange)
    case ModifiedHough(th) => if th >= 0.0 then Ok(seq(n, _ => 1)) else Ok(seq(n, _ => 0))
  }

  /** The residual and the spikes after the first t start positions have been
      visited. Spikes are binary and none lies at or beyond t. */
  function Scan(rule: Rule, x: seq<real>, w: nat, t: nat): (st: State)
    requires 1 <= w <= |x| && t <= Starts(rule, |x|, w)
    ensures |st.residual| == |x| && |st.spikes| == |x|
    ensures IsBinary(st.spikes)
    ensures forall p :: t <= p < |x| ==> st.spikes[p] == 0
    decreases t
  {
    if t == 0 then State(x, seq(|x|, _ => 0))
    else
      var prev := Scan(rule, x, w, t - 1);
      var p := t - 1;
      var e := WindowEnd(rule, |x|, w, p);
      if Matches(rule, prev.residual[p..e]) then
        State(Lower(prev.residual, p, e), prev.spikes[p := 1])
      else
        prev
  }

  /** One step of the scan: visiting start position t lowers its window and
      records a spike exactly when the window matches. */
  lemma ScanAdvance(rule: Rule, x: seq<real>, w: nat, t: nat)
    requires 1 <= w <= |x| && t < Starts(rule, |x|, w)
    ensures var prev, e := Scan(rule, x, w, t), WindowEnd(rule, |x|, w, t);
      Scan(rule, x, w, t + 1) ==
        if Matches(rule, prev.residual[t..e]) then State(Lower(prev.residual, t, e), prev.spikes[t := 1]) else prev
  {
  }

  /** A step of the scan from a known state whose window matches. */
  lemma ScanMatch(rule: Rule, x: seq<real>, w: nat, t: nat, r: seq<real>, s: seq<int>)
    requires 1 <= w <= |x| && t < Starts(rule, |x|, w)
    requires Scan(rule, x, w, t) == State(r, s)
    requires Matches(rule, r[t..WindowEnd(rule, |x|, w, t)])
    ensures Scan(rule, x, w, t + 1) == State(Lower(r, t, WindowEnd(rule, |x|, w, t)), s[t := 1])
  {
    ScanAdvance(rule, x, w, t);
  }

  /** The same step, landing on a given next state. */
  lemma ScanMatchTo(rule: Rule, x: seq<real>, w: nat, t: nat, e: nat, r: seq<real>, s: seq<int>, r': seq<real>, s': seq<int>)
    requires 1 <= w <= |x| && t < Starts(rule, |x|, w) && e == WindowEnd(rule, |x|, w, t)
    requires Scan(rule, x, w, t) == State(r, s)
    requires Matches(rule, r[t..e])
    requires Lower(r, t, e) == r' && s[t := 1] == s'
    ensures Scan(rule, x, w, t + 1) == State(r', s')
  {
    ScanMatch(rule, x, w, t, r, s);
  }

  /** A step of the scan from a known state whose window does not match. */
  lemma ScanSkip(rule: Rule, x: seq<real>, w: nat, t: nat, r: seq<real>, s: seq<int>)
    requires 1 <= w <= |x| && t < Starts(rule, |x|, w)
    requires Scan(rule, x, w, t) == State(r, s)
    requires !Matches(rule, r[t..WindowEnd(rule, |x|, w, t)])
    ensures Scan(rule, x, w, t + 1) == State(r, s)
  {
    ScanAdvance(rule, x, w, t);
  }

  /** The residual window examined at start position p. */
  function Examined(rule: Rule, x: seq<real>, w: nat, p: nat): (seg: seq<real>)
    requires 1 <= w <= |x| && p < Starts(rule, |x|, w)
    ensures |seg| == WindowEnd(rule, |x|, w, p) - p
  {
    Scan(rule, x, w, p).residual[p..WindowEnd(rule, |x|, w, p)]
  }

  /** The spike train of a full scan. */
  function Encode(rule: Rule, x: seq<real>, w: nat): (s: seq<int>)
    requires 1 <= w <= |x|
    ensures |s| == |x| && IsBinary(s)
  {
    Scan(rule, x, w, Starts(rule, |x|, w)).spikes
  }

  /** A spike is recorded at a visited position p exactly when the residual
      window at p matches the kernel; unvisited positions carry no spike. */
  lemma {:induction false} SpikeRule(rule: Rule, x: seq<real>, w: nat, t: nat, p: nat)
    requires 1 <= w <= |x| && t <= Starts(rule, |x|, w) && p < |x|
    ensures Scan(rule, x, w, t).spikes[p] == (if p < t && Matches(rule, Examined(rule, x, w, p)) then 1 else 0)
    decreases t
  {
    if t > 0 && p < t - 1 {
      SpikeRule(rule, x, w, t - 1, p);
    }
  }

  /** A full scan records a spike at p exactly when p is visited and its window matches. */
  lemma EncodeRule(rule: Rule, x: seq<real>, w: nat, p: nat)
    requires 1 <= w <= |x| && p < |x|
    ensures Encode(rule, x, w)[p] == 1 <==> p < Starts(rule, |x|, w) && Matches(rule, Examined(rule, x, w, p))
  {
    SpikeRule(rule, x, w, Starts(rule, |x|, w), p);
  }

  /** Step t of the scan only changes the residual inside the window at t - 1,
      and there by exactly one on a spike. */
  lemma ScanStep(rule: Rule, x: seq<real>, w: nat, t: nat, i: nat)
    requires 1 <= w <= |x| && 0 < t <= Starts(rule, |x|, w) && i < |x|
    ensures Scan(rule, x, w, t).residual[i] ==
      if Scan(rule, x, w, t).spikes[t - 1] == 1 && t - 1 <= i < WindowEnd(rule, |x|, w, t - 1)
      then Scan(rule, x, w, t - 1).residual[i] - 1.0
      else Scan(rule, x, w, t - 1).residual[i]
  {
  }

  /** Step t of the scan leaves the spikes before position t - 1 as they were. */
  lemma ScanKeepsEarlierSpikes(rule: Rule, x: seq<real>, w: nat, t: nat)
    requires 1 <= w <= |x| && 0 < t <= Starts(rule, |x|, w)
    ensures forall p :: 0 <= p < t - 1 ==> Scan(rule, x, w, t).spikes[p] == Scan(rule, x, w, t - 1).spikes[p]
  {
  }

  /** How many of the first t spikes in `spikes` have a window covering sample
      i: at most t, at most the number of positions from i - w + 1 to i, and
      none before the first spike. */
  function Cover(rule: Rule, spikes: seq<int>, n: nat, w: nat, i: nat, t: nat): (c: nat)
    requires 1 <= w <= n && t <= Starts(rule, n, w) && t <= |spikes|
    ensures c <= t
    ensures t <= i + 1 - w ==> c == 0
    ensures (forall p :: 0 <= p < t ==> spikes[p] == 0) ==> c == 0
  {
    if t == 0 then 0
    else
      Cover(rule, spikes, n, w, i, t - 1)
      + (if spikes[t - 1] == 1 && t - 1 <= i < WindowEnd(rule, n, w, t - 1) then 1 else 0)
  }

  /** Cover looks only at the first t spikes. */
  lemma {:induction false} CoverPrefix(rule: Rule, s1: seq<int>, s2: seq<int>, n: nat, w: nat, i: nat, t: nat)
    requires 1 <= w <= n && t <= Starts(rule, n, w) && t <= |s1| && t <= |s2|
    requires forall p :: 0 <= p < t ==> s1[p] == s2[p]
    ensures Cover(rule, s1, n, w, i, t) == Cover(rule, s2, n, w, i, t)
  {
    if t > 0 {
      CoverPrefix(rule, s1, s2, n, w, i, t - 1);
    }
  }

  /** One more position adds one to the cover exactly when it spiked and its window reaches sample i. */
  lemma CoverStep(rule: Rule, s1: seq<int>, s2: seq<int>, n: nat, w: nat, i: nat, t: nat)
    requires 1 <= w <= n && 0 < t <= Starts(rule, n, w) && t <= |s1| && t - 1 <= |s2|
    requires forall p :: 0 <= p < t - 1 ==> s1[p] == s2[p]
    ensures Cover(rule, s1, n, w, i, t) ==
      Cover(rule, s2, n, w, i, t - 1) + (if s1[t - 1] == 1 && t - 1 <= i < WindowEnd(rule, n, w, t - 1) then 1 else 0)
  {
    CoverPrefix(rule, s1, s2, n, w, i, t - 1);
  }

  /** Step t of the scan, seen from sample i: `hit` says whether the
      spike at t - 1 covers i, in which case both the cover rises and the
      residual falls by one. */
  lemma CoveredStep(rule: Rule, x: seq<real>, w: nat, t: nat, i: nat) returns (hit: bool)
    requires 1 <= w <= |x| && 0 < t <= Starts(rule, |x|, w) && i < |x|
    ensures Cover(rule, Scan(rule, x, w, t).spikes, |x|, w, i, t) ==
      Cover(rule, Scan(rule, x, w, t - 1).spikes, |x|, w, i, t - 1) + (if hit then 1 else 0)
    ensures Scan(rule, x, w, t).residual[i] ==
      if hit then Scan(rule, x, w, t - 1).residual[i] - 1.0 else Scan(rule, x, w, t - 1).residual[i]
  {
    var cur, prev := Scan(rule, x, w, t), Scan(rule, x, w, t - 1);
    ScanKeepsEarlierSpikes(rule, x, w, t);
    CoverStep(rule, cur.spikes, prev.spikes, |x|, w, i, t);
    ScanStep(rule, x, w, t, i);
    hit := cur.spikes[t - 1] == 1 && t - 1 <= i < WindowEnd(rule, |x|, w, t - 1);
  }

  /** Lowering a sample by one more covering spike keeps it equal to the input minus the cover. */
  lemma LowerByCover(now: real, before: real, input: real, cover: nat, coverBefore: nat, hit: bool)
    requires before == input - coverBefore as real
    requires cover == coverBefore + (if hit then 1 else 0)
    requires now == if hit then before - 1.0 else before
    ensures now == input - cover as real
  {
  }

  /** The central invariant: the residual is the input minus, at each sample,
      the number of recorded spikes whose window covers it. */
  lemma {:induction false} ResidualIsInputMinusCover(rule: Rule, x: seq<real>, w: nat, t: nat, i: nat)
    requires 1 <= w <= |x| && t <= Starts(rule, |x|, w) && i < |x|
    ensures Scan(rule, x, w, t).residual[i] == x[i] - Cover(rule, Scan(rule, x, w, t).spikes, |x|, w, i, t) as real
    decreases t
  {
    if t > 0 {
      ResidualIsInputMinusCover(rule, x, w, t - 1, i);
      var hit := CoveredStep(rule, x, w, t, i);
      LowerByCover(Scan(rule, x, w, t).residual[i], Scan(rule, x, w, t - 1).residual[i], x[i],
        Cover(rule, Scan(rule, x, w, t).spikes, |x|, w, i, t), Cover(rule, Scan(rule, x, w, t - 1).spikes, |x|, w, i, t - 1), hit);
    }
  }

  /** The residual never rises above the input. */
  lemma ResidualBelowInput(rule: Rule, x: seq<real>, w: nat, t: nat, i: nat)
    requires 1 <= w <= |x| && t <= Starts(rule, |x|, w) && i < |x|
    ensures Scan(rule, x, w, t).residual[i] <= x[i]
  {
    ResidualIsInputMinusCover(rule, x, w, t, i);
  }

  /** Final form of the invariant for a full scan. */
  lemma FinalResidual(rule: Rule, x: seq<real>, w: nat, i: nat)
    requires 1 <= w <= |x| && i < |x|
    ensures var t := Starts(rule, |x|, w);
      Scan(rule, x, w, t).residual[i] == x[i] - Cover(rule, Encode(rule, x, w), |x|, w, i, t) as real
  {
    ResidualIsInputMinusCover(rule, x, w, Starts(rule, |x|, w), i);
  }

  /** BSA and HSA never visit the last w - 1 positions, so no spike lies there. */
  lemma TailSilent(rule: Rule, x: seq<real>, w: nat, p: nat)
    requires 1 <= w <= |x| && !rule.ModifiedHough? && |x| - w < p < |x|
    ensures Encode(rule, x, w)[p] == 0
  {
  }

  /** BSA with a threshold above the window length never spikes, because
      sum |r| - sum |r - 1| is at most w. */
  lemma BsaSilentAboveWindow(x: seq<real>, w: nat, th: real, p: nat)
    requires 1 <= w <= |x| && th > w as real && p < |x|
    ensures Encode(Bsa(th), x, w)[p] == 0
  {
    EncodeRule(Bsa(th), x, w, p);
    if p < Starts(Bsa(th), |x|, w) {
      GainBound(Examined(Bsa(th), x, w, p));
    }
  }

  /** MHSA with a negative threshold never spikes, because the shortfall is never negative. */
  lemma MhsaSilentBelowZero(x: seq<real>, w: nat, th: real, p: nat)
    requires 1 <= w <= |x| && th < 0.0 && p < |x|
    ensures Encode(ModifiedHough(th), x, w)[p] == 0
  {
    EncodeRule(ModifiedHough(th), x, w, p);
  }

  /** HSA spikes exactly where the residual window dominates the kernel. */
  lemma HoughRule(x: seq<real>, w: nat, p: nat)
    requires 1 <= w <= |x| && p < |x|
    ensures Encode(Hough, x, w)[p] == 1 <==> p <= |x| - w && Dominates(Examined(Hough, x, w, p))
  {
    EncodeRule(Hough, x, w, p);
  }

  /** Under HSA every sample that a subtraction has touched stays non-negative. */
  lemma {:induction false} HoughTouchedNonNegative(x: seq<real>, w: nat, t: nat, i: nat)
    requires 1 <= w <= |x| && t <= Starts(Hough, |x|, w) && i < |x|
    requires Cover(Hough, Scan(Hough, x, w, t).spikes, |x|, w, i, t) > 0
    ensures Scan(Hough, x, w, t).residual[i] >= 0.0
    decreases t
  {
    var cur, prev := Scan(Hough, x, w, t), Scan(Hough, x, w, t - 1);
    var p := t - 1;
    var e := WindowEnd(Hough, |x|, w, p);
    ScanKeepsEarlierSpikes(Hough, x, w, t);
    CoverStep(Hough, cur.spikes, prev.spikes, |x|, w, i, t);
    ScanStep(Hough, x, w, t, i);
    if cur.spikes[p] == 1 && p <= i < e {
      SpikeRule(Hough, x, w, t, p);
      assert prev.residual[p..e][i - p] == prev.residual[i];
    } else {
      HoughTouchedNonNegative(x, w, t - 1, i);
    }
  }

  /** An HSA scan of a signal whose samples all lie below the kernel value never spikes. */
  lemma HoughSilentBelowOne(x: seq<real>, w: nat, p: nat)
    requires 1 <= w <= |x| && p < |x|
    requires forall i :: 0 <= i < |x| ==> x[i] < 1.0
    ensures Encode(Hough, x, w)[p] == 0
  {
    HoughRule(x, w, p);
    if p <= |x| - w {
      ResidualBelowInput(Hough, x, w, p, p);
      assert Examined(Hough, x, w, p)[0] == Scan(Hough, x, w, p).residual[p];
    }
  }

  /** The scan of the rise-and-fall signal [0, 1.5, 2, 3, 4, 5, 6, 3, 2, 1, 0]
      with window 3, which BSA at threshold 2 and HSA both take through the
      same states: RiseAndFallStep{t} gives the window examined at position t
      and, where t spikes, the residual and the spikes after the kernel is
      subtracted there (position 0, which neither spikes at, is folded into
      step 1). */
  lemma RiseAndFallStep1()
    ensures [0.0, 1.5, 2.0, 3.0, 4.0, 5.0, 6.0, 3.0, 2.0, 1.0, 0.0][0..3] == [0.0, 1.5, 2.0]
    ensures [0.0, 1.5, 2.0, 3.0, 4.0, 5.0, 6.0, 3.0, 2.0, 1.0, 0.0][1..4] == [1.5, 2.0, 3.0]
    ensures Lower([0.0, 1.5, 2.0, 3.0, 4.0, 5.0, 6.0, 3.0, 2.0, 1.0, 0.0], 1, 4) ==
      [0.0, 0.5, 1.0, 2.0, 4.0, 5.0, 6.0, 3.0, 2.0, 1.0, 0.0]
    ensures seq(11, _ => 0)[1 := 1] == [0, 1, 0, 0, 0, 0, 0, 0, 0, 0, 0]
  {
  }

  lemma RiseAndFallStep2()
    ensures [0.0, 0.5, 1.0, 2.0, 4.0, 5.0, 6.0, 3.0, 2.0, 1.0, 0.0][2..5] == [1.0, 2.0, 4.0]
    ensures Lower([0.0, 0.5, 1.0, 2.0, 4.0, 5.0, 6.0, 3.0, 2.0, 1.0, 0.0], 2, 5) ==
      [0.0, 0.5, 0.0, 1.0, 3.0, 5.0, 6.0, 3.0, 2.0, 1.0, 0.0]
    ensures [0, 1, 0, 0, 0, 0, 0, 0, 0, 0, 0][2 := 1] == [0, 1, 1, 0, 0, 0, 0, 0, 0, 0, 0]
  {
  }

  lemma RiseAndFallStep3()
    ensures [0.0, 0.5, 0.0, 1.0, 3.0, 5.0, 6.0, 3.0, 2.0, 1.0, 0.0][3..6] == [1.0, 3.0, 5.0]
    ensures Lower([0.0, 0.5, 0.0, 1.0, 3.0, 5.0, 6.0, 3.0, 2.0, 1.0, 0.0], 3, 6) ==
      [0.0, 0.5, 0.0, 0.0, 2.0, 4.0, 6.0, 3.0, 2.0, 1.0, 0.0]
    ensures [0, 1, 1, 0, 0, 0, 0, 0, 0, 0, 0][3 := 1] == [0, 1, 1, 1, 0, 0, 0, 0, 0, 0, 0]
  {
  }

  lemma RiseAndFallStep4()
    ensures [0.0, 0.5, 0.0, 0.0, 2.0, 4.0, 6.0, 3.0, 2.0, 1.0, 0.0][4..7] == [2.0, 4.0, 6.0]
    ensures Lower([0.0, 0.5, 0.0, 0.0, 2.0, 4.0, 6.0, 3.0, 2.0, 1.0, 0.0], 4, 7) ==
      [0.0, 0.5, 0.0, 0.0, 1.0, 3.0, 5.0, 3.0, 2.0, 1.0, 0.0]
    ensures [0, 1, 1, 1, 0, 0, 0, 0, 0, 0, 0][4 := 1] == [0, 1, 1, 1, 1, 0, 0, 0, 0, 0, 0]
  {
  }

  lemma RiseAndFallStep5()
    ensures [0.0, 0.5, 0.0, 0.0, 1.0, 3.0, 5.0, 3.0, 2.0, 1.0, 0.0][5..8] == [3.0, 5.0, 3.0]
    ensures Lower([0.0, 0.5, 0.0, 0.0, 1.0, 3.0, 5.0, 3.0, 2.0, 1.0, 0.0], 5, 8) ==
      [0.0, 0.5, 0.0, 0.0, 1.0, 2.0, 4.0, 2.0, 2.0, 1.0, 0.0]
    ensures [0, 1, 1, 1, 1, 0, 0, 0, 0, 0, 0][5 := 1] == [0, 1, 1, 1, 1, 1, 0, 0, 0, 0, 0]
  {
  }

  lemma RiseAndFallStep6()
    ensures [0.0, 0.5, 0.0, 0.0, 1.0, 2.0, 4.0, 2.0, 2.0, 1.0, 0.0][6..9] == [4.0, 2.0, 2.0]
    ensures Lower([0.0, 0.5, 0.0, 0.0, 1.0, 2.0, 4.0, 2.0, 2.0, 1.0, 0.0], 6, 9) ==
      [0.0, 0.5, 0.0, 0.0, 1.0, 2.0, 3.0, 1.0, 1.0, 1.0, 0.0]
    ensures [0, 1, 1, 1, 1, 1, 0, 0, 0, 0, 0][6 := 1] == [0, 1, 1, 1, 1, 1, 1, 0, 0, 0, 0]
  {
  }

  lemma RiseAndFallStep7()
    ensures [0.0, 0.5, 0.0, 0.0, 1.0, 2.0, 3.0, 1.0, 1.0, 1.0, 0.0][7..10] == [1.0, 1.0, 1.0]
    ensures Lower([0.0, 0.5, 0.0, 0.0, 1.0, 2.0, 3.0, 1.0, 1.0, 1.0, 0.0], 7, 10) ==
      [0.0, 0.5, 0.0, 0.0, 1.0, 2.0, 3.0, 0.0, 0.0, 0.0, 0.0]
    ensures [0, 1, 1, 1, 1, 1, 1, 0, 0, 0, 0][7 := 1] == [0, 1, 1, 1, 1, 1, 1, 1, 0, 0, 0]
  {
  }

  lemma RiseAndFallStep8()
    ensures [0.0, 0.5, 0.0, 0.0, 1.0, 2.0, 3.0, 0.0, 0.0, 0.0, 0.0][8..11] == [0.0, 0.0, 0.0]
  {
  }
}
