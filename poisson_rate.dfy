/** poisson_rate: every block of L samples with a positive normalised rate
    draws one inter-spike gap from an exponential distribution, repeats it L
    times, and marks the bins of [0, 1] (cut into L) that the cumulative
    times fall in. The uniform draw of each block and the natural logarithm
    are parameters. */
module PoissonRateAlgorithm {
  import opened Common
  import opened BlockRate

  /** The facts about the natural logarithm the proofs use: ln(1) = 0 and it
      strictly increases on positive arguments. */
  ghost predicate LnIncreasing(ln: real -> real)
  {
    && ln(1.0) == 0.0
    && forall x, y :: 0.0 < x < y ==> ln(x) < ln(y)
  }

  /** -np.log(1 - u) / (rate * L): the gap between consecutive spike times.
      A draw in (0, 1) gives a positive gap, and a zero draw a zero gap. */
  function Gap(rate: real, u: real, L: nat, ln: real -> real): (g: real)
    requires rate > 0.0 && L >= 1
    ensures LnIncreasing(ln) && 0.0 < u < 1.0 ==> g > 0.0
    ensures LnIncreasing(ln) && u == 0.0 ==> g == 0.0
  {
    ScalePositive(rate, L as real);
    assert LnIncreasing(ln) && 0.0 < u < 1.0 ==> ln(1.0 - u) < 0.0 by {
      if LnIncreasing(ln) && 0.0 < u < 1.0 {
        assert ln(1.0 - u) < ln(1.0);
      }
    }
    -ln(1.0 - u) / (rate * (L as real))
  }

  /** Spike time k of a block, k * d: a positive gap puts every spike time
      after the first edge, and spike time 0 on it. */
  function SpikeTime(d: real, k: nat): (t: real)
    ensures d > 0.0 && k >= 1 ==> t > 0.0
    ensures k == 0 ==> t == 0.0
  {
    assert d > 0.0 && k >= 1 ==> (k as real) * d > 0.0 by {
      if d > 0.0 && k >= 1 {
        ScalePositive(k as real, d);
      }
    }
    (k as real) * d
  }

  /** np.searchsorted(bins, t) - 1 for the time of spike k, (k + 1) * gap,
      with bins = np.linspace(0, 1, L + 1). */
  function Hit(d: real, L: nat, k: nat): (h: int)
    ensures -1 <= h <= L
  {
    SearchSorted(Linspace(0.0, 1.0, L + 1), SpikeTime(d, k + 1)) - 1
  }

  /** The position a kept index writes: numpy counts -1 from the end. */
  function Slot(h: int, L: nat): (p: int)
    requires L >= 1 && -1 <= h < L
    ensures 0 <= p < L
  {
    if h < 0 then h + L else h
  }

  /** Some spike time among the first n, kept by spike_times < L, writes position p. */
  predicate Written(d: real, L: nat, n: nat, p: nat)
    ensures Written(d, L, n, p) ==> p < L && n >= 1
  {
    p < L && exists k :: 0 <= k < n && Hit(d, L, k) < L && Slot(Hit(d, L, k), L) == p
  }

  /** The row after the first n spike times are written. */
  function Marked(d: real, L: nat, n: nat): (row: seq<int>)
    ensures |row| == L && IsBinary(row)
    ensures forall p :: 0 <= p < L ==> (row[p] == 1 <==> Written(d, L, n, p))
  {
    seq(L, p requires 0 <= p < L => if Written(d, L, n, p) then 1 else 0)
  }

  /** Before any write the row is zero. */
  lemma MarkedNone(d: real, L: nat)
    ensures Marked(d, L, 0) == seq(L, _ => 0)
  {
  }

  /** Spike time k adds its kept position, if any, to the positions written. */
  lemma WrittenStep(d: real, L: nat, k: nat, p: nat)
    requires L >= 1 && p < L
    ensures Written(d, L, k + 1, p) <==> Written(d, L, k, p) || (Hit(d, L, k) < L && Slot(Hit(d, L, k), L) == p)
  {
    var here := Hit(d, L, k) < L && Slot(Hit(d, L, k), L) == p;
    if Written(d, L, k + 1, p) {
      var m :| 0 <= m < k + 1 && Hit(d, L, m) < L && Slot(Hit(d, L, m), L) == p;
      if m < k {
        assert Written(d, L, k, p);
      } else {
        assert here;
      }
    }
    if Written(d, L, k, p) {
      var m :| 0 <= m < k && Hit(d, L, m) < L && Slot(Hit(d, L, m), L) == p;
      assert 0 <= m < k + 1;
    }
    if here {
      assert 0 <= k < k + 1;
    }
  }

  /** Writing spike time k sets its kept position and nothing else. */
  lemma MarkedStep(d: real, L: nat, k: nat)
    requires L >= 1
    ensures Hit(d, L, k) < L ==> Marked(d, L, k + 1) == Marked(d, L, k)[Slot(Hit(d, L, k), L) := 1]
    ensures Hit(d, L, k) >= L ==> Marked(d, L, k + 1) == Marked(d, L, k)
  {
    var before, after, h := Marked(d, L, k), Marked(d, L, k + 1), Hit(d, L, k);
    if h < L {
      var written := before[Slot(h, L) := 1];
      forall p | 0 <= p < L ensures after[p] == written[p] {
        WrittenStep(d, L, k, p);
      }
      assert after == written;
    } else {
      forall p | 0 <= p < L ensures after[p] == before[p] {
        WrittenStep(d, L, k, p);
      }
      assert after == before;
    }
  }

  /** The spikes of one block: all L spike times written for a positive rate,
      none for a zero rate. */
  function PoissonRow(rate: real, u: real, L: nat, ln: real -> real): (row: seq<int>)
    requires L >= 1
    ensures |row| == L && IsBinary(row)
  {
    if rate > 0.0 then Marked(Gap(rate, u, L, ln), L, L) else seq(L, _ => 0)
  }

  /** One row per block, block i using draw i. */
  function PoissonRows(rates: seq<real>, L: nat, draw: nat -> real, ln: real -> real): (rows: seq<seq<int>>)
    requires L >= 1
    ensures |rows| == |rates|
    ensures forall i :: 0 <= i < |rows| ==> rows[i] == PoissonRow(rates[i], draw(i), L, ln)
  {
    seq(|rates|, i requires 0 <= i < |rates| => PoissonRow(rates[i], draw(i), L, ln))
  }

  /** poisson_rate: an empty signal and a length that is not a multiple of the
      interval fail their checks; otherwise one 0/1 spike per sample. */
  function PoissonSpec(s: seq<real>, L: nat, draw: nat -> real, ln: real -> real): (r: Result<seq<int>>)
    requires |s| > 0 ==> L >= 1
    ensures r == Err(EmptySignal) <==> |s| == 0
    ensures r == Err(NotMultiple) <==> |s| > 0 && |s| % L != 0
    ensures r.Ok? <==> |s| > 0 && |s| % L == 0
    ensures r.Ok? ==> |r.value| == |s| && IsBinary(r.value)
  {
    if |s| == 0 then Err(EmptySignal)
    else if |s| % L != 0 then Err(NotMultiple)
    else
      var rows := PoissonRows(Rates(s, L), L, draw, ln);
      ConcatBlocksLength(rows, |s|, L);
      ConcatBinary(rows);
      Ok(Concat(rows))
  }

  /** spikes[b, spike_times] = 1 for the L spike times of one block. */
  method FillPoisson(spikes: array2<int>, b: nat, d: real)
    modifies spikes
    requires b < spikes.Length0 && spikes.Length1 >= 1
    requires RowOf(spikes, b) == seq(spikes.Length1, _ => 0)
    ensures RowOf(spikes, b) == Marked(d, spikes.Length1, spikes.Length1)
    ensures forall c, p :: 0 <= c < spikes.Length0 && 0 <= p < spikes.Length1 && c != b ==>
      spikes[c, p] == old(spikes[c, p])
  {
    var L := spikes.Length1;
    var bins := Linspace(0.0, 1.0, L + 1);
    MarkedNone(d, L);
    for k := 0 to L
      invariant RowOf(spikes, b) == Marked(d, L, k)
      invariant forall c, p :: 0 <= c < spikes.Length0 && 0 <= p < L && c != b ==>
        spikes[c, p] == old(spikes[c, p])
    {
      var idx := SearchSorted(bins, SpikeTime(d, k + 1)) - 1;
      assert idx == Hit(d, L, k);
      MarkedStep(d, L, k);
      if idx < L {
        var slot := if idx < 0 then idx + L else idx;
        SetSpike(spikes, b, slot);
      }
    }
  }

  /** The loop over blocks: a block with a positive rate draws its gap and
      writes its spike times; any other block stays zero. */
  method FillBlocks(spikes: array2<int>, rates: seq<real>, draw: nat -> real, ln: real -> real)
    modifies spikes
    requires |rates| == spikes.Length0 && spikes.Length1 >= 1
    requires forall c, p :: 0 <= c < spikes.Length0 && 0 <= p < spikes.Length1 ==> spikes[c, p] == 0
    ensures forall c :: 0 <= c < spikes.Length0 ==> RowOf(spikes, c) == PoissonRow(rates[c], draw(c), spikes.Length1, ln)
  {
    var nb, L := spikes.Length0, spikes.Length1;
    for b := 0 to nb
      invariant forall c :: 0 <= c < b ==> RowOf(spikes, c) == PoissonRow(rates[c], draw(c), L, ln)
      invariant forall c, p :: b <= c < nb && 0 <= p < L ==> spikes[c, p] == 0
    {
      assert RowOf(spikes, b) == seq(L, _ => 0);
      if rates[b] > 0.0 {
        var gap := -ln(1.0 - draw(b)) / (rates[b] * (L as real));
        assert gap == Gap(rates[b], draw(b), L, ln);
        FillPoisson(spikes, b, gap);
      }
      assert RowOf(spikes, b) == PoissonRow(rates[b], draw(b), L, ln);
    }
  }

  /** poisson_rate: the checks, the block rates, the loop over blocks into a
      zero-initialised array, then the flattening. */
  method PoissonRate(signal: seq<real>, L: nat, draw: nat -> real, ln: real -> real) returns (r: Result<seq<int>>)
    requires |signal| > 0 ==> L >= 1
    ensures r == PoissonSpec(signal, L, draw, ln)
  {
    if |signal| == 0 {
      return Err(EmptySignal);
    }
    if |signal| % L != 0 {
      return Err(NotMultiple);
    }
    var rates := Rates(signal, L);
    var nb := |rates|;
    ghost var rows := PoissonRows(rates, L, draw, ln);
    var spikes := new int[nb, L]((_, _) => 0);
    FillBlocks(spikes, rates, draw, ln);
    var flat := seq(nb, c reads spikes requires 0 <= c < nb => RowOf(spikes, c));
    assert forall c :: 0 <= c < nb ==> flat[c] == rows[c];
    assert flat == rows;
    return Ok(Concat(flat));
  }

  /** Comparing a / L with t is comparing a with t * L. */
  lemma ScaleCompare(a: real, t: real, L: real)
    requires L > 0.0
    ensures a / L < t <==> a < t * L
  {
    var q := a / L;
    assert q * L == a;
    if q < t {
      MulStrict(q, t, L);
    } else {
      MulMonotone(t, q, L);
    }
  }

  /** Edge j of np.linspace(0, 1, L + 1) is j / L. */
  lemma BinEdge(L: nat, j: nat)
    requires L >= 1 && j <= L
    ensures Linspace(0.0, 1.0, L + 1)[j] == (j as real) / (L as real)
  {
  }

  /** The bin of a time t: ceil(t * L) - 1. */
  function Bin(t: real, L: nat): int
  {
    Ceil(t * (L as real)) - 1
  }

  /** Edge j lies below a positive time t exactly when j < ceil(t * L). */
  lemma EdgeBelow(L: nat, j: nat, t: real)
    requires L >= 1 && j <= L && t > 0.0
    ensures Linspace(0.0, 1.0, L + 1)[j] < t <==> j < Ceil(t * (L as real))
  {
    CeilBelow(j, t * (L as real));
    ScaleCompare(j as real, t, L as real);
    BinEdge(L, j);
  }

  /** np.searchsorted over the L + 1 edges of [0, 1]: 0 for a time at or below
      0, otherwise ceil(t * L), or L + 1 once t * L passes L. */
  lemma BinIndex(t: real, L: nat)
    requires L >= 1
    ensures t <= 0.0 ==> SearchSorted(Linspace(0.0, 1.0, L + 1), t) == 0
    ensures t > 0.0 ==> SearchSorted(Linspace(0.0, 1.0, L + 1), t) == Min(Bin(t, L) + 1, L + 1)
  {
    BinEdge(L, 0);
    if t > 0.0 {
      PositiveBinIndex(t, L);
    }
  }

  /** The positive-time case of BinIndex. */
  lemma PositiveBinIndex(t: real, L: nat)
    requires L >= 1 && t > 0.0
    ensures SearchSorted(Linspace(0.0, 1.0, L + 1), t) == Min(Bin(t, L) + 1, L + 1)
  {
    var bins := Linspace(0.0, 1.0, L + 1);
    var c := Min(Ceil(t * (L as real)), L + 1);
    forall j | 0 <= j < c ensures bins[j] < t {
      EdgeBelow(L, j, t);
    }
    if c < L + 1 {
      EdgeBelow(L, c, t);
    }
    SearchSortedUnique(bins, t, c);
  }

  /** A positive time is kept, its searchsorted index minus one staying below
      L, exactly when it is at most 1; its bin is then not negative. */
  lemma KeptIff(t: real, L: nat)
    requires t > 0.0 && L >= 1
    ensures Min(Bin(t, L) + 1, L + 1) - 1 < L <==> t <= 1.0
    ensures t <= 1.0 ==> 0 <= Bin(t, L)
  {
    if t <= 1.0 {
      CeilScaledBetween(t, L);
      CeilScaledPositive(t, L);
    } else {
      CeilScaledAbove(t, L);
    }
  }

  /** For a positive gap, spike time k + 1 is kept exactly when it is at most
      1, and then it writes bin ceil((k + 1) * d * L) - 1, which is not negative. */
  lemma HitKept(d: real, L: nat, k: nat)
    requires d > 0.0 && L >= 1
    ensures Hit(d, L, k) < L <==> SpikeTime(d, k + 1) <= 1.0
    ensures Hit(d, L, k) < L ==> 0 <= Hit(d, L, k) == Bin(SpikeTime(d, k + 1), L)
  {
    var t := SpikeTime(d, k + 1);
    BinIndex(t, L);
    KeptIff(t, L);
    var h, b := Hit(d, L, k), Bin(t, L);
    assert h == Min(b + 1, L + 1) - 1;
    if b < L {
      assert h == b && t <= 1.0;
    } else {
      assert h >= L && !(t <= 1.0);
    }
  }

  /** For a positive gap the marked bins are exactly ceil(k * d * L) - 1 for the
      spike times k * d, 1 <= k <= L, that do not pass 1. */
  lemma MarkedBins(d: real, L: nat, p: nat)
    requires d > 0.0 && L >= 1 && p < L
    ensures Marked(d, L, L)[p] == 1 <==>
      exists k :: 1 <= k <= L && SpikeTime(d, k) <= 1.0 && Bin(SpikeTime(d, k), L) == p
  {
    if Written(d, L, L, p) {
      var m :| 0 <= m < L && Hit(d, L, m) < L && Slot(Hit(d, L, m), L) == p;
      HitKept(d, L, m);
      assert SpikeTime(d, m + 1) <= 1.0 && Bin(SpikeTime(d, m + 1), L) == p;
    }
    if exists k :: 1 <= k <= L && SpikeTime(d, k) <= 1.0 && Bin(SpikeTime(d, k), L) == p {
      var k :| 1 <= k <= L && SpikeTime(d, k) <= 1.0 && Bin(SpikeTime(d, k), L) == p;
      HitKept(d, L, k - 1);
      assert Hit(d, L, k - 1) < L && Slot(Hit(d, L, k - 1), L) == p;
    }
  }

  /** A block with a positive rate and a positive draw spikes at the bin of
      every spike time that stays inside [0, 1], and nowhere else. */
  lemma RowBins(rate: real, u: real, L: nat, ln: real -> real, p: nat)
    requires LnIncreasing(ln) && rate > 0.0 && L >= 1 && 0.0 < u < 1.0 && p < L
    ensures var d := Gap(rate, u, L, ln);
      d > 0.0
      && (PoissonRow(rate, u, L, ln)[p] == 1 <==>
          exists k :: 1 <= k <= L && SpikeTime(d, k) <= 1.0 && Bin(SpikeTime(d, k), L) == p)
  {
    MarkedBins(Gap(rate, u, L, ln), L, p);
  }

  /** A block spikes at all exactly when its gap is at most the unit interval;
      its first spike is then at the bin of the gap itself. */
  lemma SpikesIffShortGap(d: real, L: nat)
    requires d > 0.0 && L >= 1
    ensures d <= 1.0 ==> 0 <= Bin(d, L) < L && Marked(d, L, L)[Bin(d, L)] == 1
    ensures d > 1.0 ==> Marked(d, L, L) == seq(L, _ => 0)
  {
    HitKept(d, L, 0);
    assert SpikeTime(d, 1) == d;
    if d <= 1.0 {
      MarkedBins(d, L, Bin(d, L));
    } else {
      forall p | 0 <= p < L ensures Marked(d, L, L)[p] == 0 {
        forall k | 1 <= k <= L ensures SpikeTime(d, k) > 1.0 {
          ScaleAtLeast(k as real, d);
        }
        MarkedBins(d, L, p);
      }
    }
  }

  /** A zero draw makes every spike time 0, whose index -1 numpy reads as the
      last position: the block spikes only there. */
  lemma ZeroDrawMarksLast(rate: real, L: nat, ln: real -> real, p: nat)
    requires LnIncreasing(ln) && rate > 0.0 && L >= 1 && p < L
    ensures PoissonRow(rate, 0.0, L, ln)[p] == 1 <==> p == L - 1
  {
    forall k: nat | k < L ensures Hit(0.0, L, k) == -1 {
      BinIndex(SpikeTime(0.0, k + 1), L);
    }
    if p == L - 1 {
      assert Hit(0.0, L, 0) < L && Slot(Hit(0.0, L, 0), L) == p;
    }
  }

  /** Block i of a successful encoding is the row of block i's rate and draw. */
  lemma PoissonBlock(s: seq<real>, L: nat, draw: nat -> real, ln: real -> real, i: nat)
    requires |s| > 0 && L >= 1 && |s| % L == 0 && i < |s| / L
    ensures 0 <= i * L && i * L + L <= |s|
    ensures PoissonSpec(s, L, draw, ln).value[i * L..i * L + L] == PoissonRow(Rates(s, L)[i], draw(i), L, ln)
  {
    BlockFits(|s|, L, i);
    var rows := PoissonRows(Rates(s, L), L, draw, ln);
    ConcatBlock(rows, L, i);
  }

  /** A block with no positive sample gets no spike, whatever its draw. */
  lemma SilentBlockEmpty(s: seq<real>, L: nat, draw: nat -> real, ln: real -> real, i: nat)
    requires |s| > 0 && L >= 1 && |s| % L == 0 && i < |s| / L
    requires Silent(Blocks(s, L)[i])
    ensures 0 <= i * L && i * L + L <= |s|
    ensures PoissonSpec(s, L, draw, ln).value[i * L..i * L + L] == seq(L, _ => 0)
  {
    RateZeroIff(s, L, i);
    PoissonBlock(s, L, draw, ln, i);
  }

  /** A signal with no positive sample encodes to all zeros. */
  lemma SilentSignal(s: seq<real>, L: nat, draw: nat -> real, ln: real -> real)
    requires |s| > 0 && L >= 1 && |s| % L == 0
    requires forall k :: 0 <= k < |s| ==> s[k] <= 0.0
    ensures PoissonSpec(s, L, draw, ln) == Ok(seq(|s|, _ => 0))
  {
    RatesSilent(s, L);
    var rows := PoissonRows(Rates(s, L), L, draw, ln);
    ConcatZeros(rows, L);
    DivExact(|s|, L);
  }

  /** [0, 0, 0, 0] in one interval of 4 encodes to four zeros. */
  lemma ZeroSignal(x: seq<real>, draw: nat -> real, ln: real -> real)
    requires x == [0.0, 0.0, 0.0, 0.0]
    ensures PoissonSpec(x, 4, draw, ln) == Ok([0, 0, 0, 0])
  {
    SilentSignal(x, 4, draw, ln);
    assert seq(4, _ => 0) == [0, 0, 0, 0];
  }
}
