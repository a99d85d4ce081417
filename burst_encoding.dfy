/** burst_encoding: every block of L samples becomes a burst whose spike
    count grows and whose inter-spike interval shrinks with the block's
    normalised rate. */
module BurstEncodingAlgorithm {
  import opened Common
  import opened BlockRate

  /** np.ceil(rate * n_max): the number of spikes of a block. A rate in [0, 1]
      gives between 0 and n_max spikes, a zero rate none and any positive
      rate at least one. */
  function SpikeNum(rate: real, nMax: int): (n: int)
    ensures 0.0 <= rate <= 1.0 && nMax >= 0 ==> 0 <= n <= nMax
    ensures rate == 0.0 ==> n == 0
    ensures rate > 0.0 && nMax >= 1 ==> n >= 1
  {
    SpikeNumRange(rate, nMax);
    Ceil(rate * (nMax as real))
  }

  lemma SpikeNumRange(rate: real, nMax: int)
    ensures 0.0 <= rate <= 1.0 && nMax >= 0 ==> 0 <= Ceil(rate * (nMax as real)) <= nMax
    ensures rate == 0.0 ==> Ceil(rate * (nMax as real)) == 0
    ensures rate > 0.0 && nMax >= 1 ==> Ceil(rate * (nMax as real)) >= 1
  {
    if 0.0 <= rate <= 1.0 && nMax >= 0 {
      CeilScaledBetween(rate, nMax);
    }
    if rate > 0.0 && nMax >= 1 {
      CeilScaledPositive(rate, nMax);
    }
  }

  /** np.ceil(t_max - rate * (t_max - t_min)): the inter-spike interval of a
      block. A rate in [0, 1] gives an interval between t_min and t_max, rate
      0 gives t_max; with t_min above t_max the range turns round. */
  function Isi(rate: real, tMin: int, tMax: int): (d: int)
    ensures 0.0 <= rate <= 1.0 && tMin <= tMax ==> tMin <= d <= tMax
    ensures 0.0 <= rate <= 1.0 && tMax < tMin ==> tMax <= d <= tMin
    ensures rate == 0.0 ==> d == tMax
  {
    IsiRange(rate, tMin, tMax);
    Ceil((tMax as real) - rate * ((tMax - tMin) as real))
  }

  /** The real value under the ceiling of Isi lies between the two bounds. */
  lemma IsiRange(rate: real, tMin: int, tMax: int)
    ensures 0.0 <= rate <= 1.0 && tMin <= tMax ==>
      tMin as real <= (tMax as real) - rate * ((tMax - tMin) as real) <= tMax as real
    ensures 0.0 <= rate <= 1.0 && tMax < tMin ==>
      tMax as real <= (tMax as real) - rate * ((tMax - tMin) as real) <= tMin as real
  {
    var d := (tMax - tMin) as real;
    if 0.0 <= rate <= 1.0 && tMin <= tMax {
      ScaleBetween(rate, d);
    }
    if 0.0 <= rate <= 1.0 && tMax < tMin {
      ScaleBetween(rate, -d);
      assert rate * d == -(rate * -d);
    }
  }

  /** spike_num * (ISI + 1): the samples a block's burst needs. A silent block
      needs none, and a rate in [0, 1] never needs more than n_max * (t_max + 1)
      when 0 <= t_min <= t_max. */
  function Span(rate: real, nMax: int, tMin: int, tMax: int): (sp: int)
    ensures rate == 0.0 ==> sp == 0
    ensures 0.0 <= rate <= 1.0 && nMax >= 0 && 0 <= tMin <= tMax ==> 0 <= sp <= nMax * (tMax + 1)
  {
    var n, d := SpikeNum(rate, nMax), Isi(rate, tMin, tMax) + 1;
    assert 0.0 <= rate <= 1.0 && nMax >= 0 && 0 <= tMin <= tMax ==> 0 <= n * d <= nMax * (tMax + 1) by {
      if 0.0 <= rate <= 1.0 && nMax >= 0 && 0 <= tMin <= tMax {
        MulMonotoneInt(n, nMax, d);
        MulMonotoneInt(d, tMax + 1, nMax);
        MulMonotoneInt(0, n, d);
        assert d * nMax == nMax * d;
      }
    }
    n * d
  }

  /** required_length = np.max(spike_num * (ISI + 1)): the largest span over all blocks. */
  function RequiredLength(rates: seq<real>, nMax: int, tMin: int, tMax: int): (m: int)
    requires |rates| > 0
    ensures forall i :: 0 <= i < |rates| ==> Span(rates[i], nMax, tMin, tMax) <= m
    ensures exists i :: 0 <= i < |rates| && Span(rates[i], nMax, tMin, tMax) == m
  {
    var last := Span(rates[|rates| - 1], nMax, tMin, tMax);
    if |rates| == 1 then last
    else
      var front := rates[..|rates| - 1];
      var m' := RequiredLength(front, nMax, tMin, tMax);
      assert forall i :: 0 <= i < |front| ==> front[i] == rates[i];
      if last > m' then last else m'
  }

  /** The burst of one block: ones at the offsets k * step for 0 <= k < num. */
  function BurstRow(num: int, step: nat, L: nat): (row: seq<int>)
    requires step >= 1
    ensures |row| == L && IsBinary(row)
  {
    seq(L, p requires 0 <= p < L => if p % step == 0 && p / step < num then 1 else 0)
  }

  lemma MulDivMod(k: nat, step: nat)
    requires step >= 1
    ensures (k * step) % step == 0 && (k * step) / step == k
  {
    var n := k * step;
    var q, m := n / step, n % step;
    assert n == q * step + m && 0 <= m < step;
    if q < k {
      MulMonotoneInt(q + 1, k, step);
      assert false;
    } else if q > k {
      MulMonotoneInt(k + 1, q, step);
      assert false;
    }
  }

  /** A burst row has a one at offset p exactly when p is k * step for some k < num. */
  lemma BurstRowAt(num: int, step: nat, L: nat, p: nat)
    requires step >= 1 && p < L
    ensures BurstRow(num, step, L)[p] == 1 <==> exists k: nat :: k < num && p == k * step
  {
    if BurstRow(num, step, L)[p] == 1 {
      var k := p / step;
      assert p == k * step;
    }
    if exists k: nat :: k < num && p == k * step {
      var k: nat :| k < num && p == k * step;
      MulDivMod(k, step);
    }
  }

  /** Writing spike k of the burst turns the first k spikes into the first k + 1. */
  lemma BurstRowStep(k: nat, step: nat, L: nat)
    requires step >= 1 && k * step < L
    ensures BurstRow(k + 1, step, L) == BurstRow(k, step, L)[k * step := 1]
    ensures BurstRow(k, step, L)[k * step] == 0
  {
    MulDivMod(k, step);
    var next, written := BurstRow(k + 1, step, L), BurstRow(k, step, L)[k * step := 1];
    forall p | 0 <= p < L ensures next[p] == written[p] {
      if p % step == 0 && p / step == k {
        assert p == k * step;
      }
    }
  }

  /** No spike, or a negative count, leaves the row empty. */
  lemma BurstRowEmpty(num: int, step: nat, L: nat)
    requires step >= 1 && num <= 0
    ensures BurstRow(num, step, L) == BurstRow(0, step, L) == seq(L, _ => 0)
  {
  }

  /** A burst that fits its block has max(num, 0) spikes. */
  lemma {:induction false} BurstRowCount(num: int, step: nat, L: nat)
    requires step >= 1 && num * step <= L
    ensures Count(BurstRow(num, step, L), 1) == if num > 0 then num else 0
  {
    if num <= 0 {
      BurstRowEmpty(num, step, L);
      CountNone(BurstRow(num, step, L), 1);
    } else {
      MulMonotoneInt(num - 1, num, step);
      BurstRowCount(num - 1, step, L);
      assert (num - 1) * step < L by {
        assert (num - 1) * step == num * step - step;
      }
      BurstRowStep(num - 1, step, L);
      CountUpdate(BurstRow(num - 1, step, L), (num - 1) * step, 1);
    }
  }

  /** One burst row per block rate. */
  function BurstRows(rates: seq<real>, nMax: int, tMin: int, tMax: int, L: nat): (rows: seq<seq<int>>)
    requires forall i :: 0 <= i < |rates| ==> 0.0 <= rates[i] <= 1.0
    requires 0 <= tMin && 0 <= tMax
    ensures |rows| == |rates|
    ensures forall i :: 0 <= i < |rows| ==>
      Isi(rates[i], tMin, tMax) >= 0 && rows[i] == BurstRow(SpikeNum(rates[i], nMax), Isi(rates[i], tMin, tMax) + 1, L)
  {
    seq(|rates|, i requires 0 <= i < |rates| =>
      BurstRow(SpikeNum(rates[i], nMax), Isi(rates[i], tMin, tMax) + 1, L))
  }

  /** burst_encoding: an empty signal and a length that is not a multiple of
      the block size fail their checks; so does any block whose burst needs
      more than L samples. */
  function BurstSpec(s: seq<real>, nMax: int, tMin: int, tMax: int, L: nat): (r: Result<seq<int>>)
    requires |s| > 0 ==> L >= 1 && 0 <= tMin && 0 <= tMax
    ensures r == Err(EmptySignal) <==> |s| == 0
    ensures r == Err(NotMultiple) <==> |s| > 0 && |s| % L != 0
    ensures r == Err(InsufficientLength) <==>
      (|s| > 0 && |s| % L == 0 && exists i :: 0 <= i < |s| / L && Span(Rates(s, L)[i], nMax, tMin, tMax) > L)
    ensures r.Ok? <==>
      (|s| > 0 && |s| % L == 0 && forall i :: 0 <= i < |s| / L ==> Span(Rates(s, L)[i], nMax, tMin, tMax) <= L)
    ensures r.Ok? ==> |r.value| == |s| && IsBinary(r.value)
  {
    if |s| == 0 then Err(EmptySignal)
    else if |s| % L != 0 then Err(NotMultiple)
    else
      var rates := Rates(s, L);
      if L < RequiredLength(rates, nMax, tMin, tMax) then Err(InsufficientLength)
      else
        var rows := BurstRows(rates, nMax, tMin, tMax, L);
        ConcatBlocksLength(rows, |s|, L);
        ConcatBinary(rows);
        Ok(Concat(rows))
  }

  /** spikes[b, spike_times] = 1 for the burst of one block. */
  method FillBurst(spikes: array2<int>, b: nat, num: int, step: nat)
    modifies spikes
    requires b < spikes.Length0 && step >= 1 && num * step <= spikes.Length1
    requires RowOf(spikes, b) == seq(spikes.Length1, _ => 0)
    ensures RowOf(spikes, b) == BurstRow(num, step, spikes.Length1)
    ensures forall c, p :: 0 <= c < spikes.Length0 && 0 <= p < spikes.Length1 && c != b ==>
      spikes[c, p] == old(spikes[c, p])
  {
    var L := spikes.Length1;
    var count := if num > 0 then num else 0;
    BurstRowEmpty(0, step, L);
    for k := 0 to count
      invariant RowOf(spikes, b) == BurstRow(k, step, L)
      invariant forall c, p :: 0 <= c < spikes.Length0 && 0 <= p < L && c != b ==>
        spikes[c, p] == old(spikes[c, p])
    {
      MulMonotoneInt(k + 1, num, step);
      BurstRowStep(k, step, L);
      SetSpike(spikes, b, k * step);
    }
    if num <= 0 {
      BurstRowEmpty(num, step, L);
    }
  }

  /** The loop over blocks: block b gets nums[b] spikes steps[b] apart. */
  method FillBursts(spikes: array2<int>, nums: seq<int>, steps: seq<nat>)
    modifies spikes
    requires |nums| == |steps| == spikes.Length0
    requires forall c :: 0 <= c < |steps| ==> steps[c] >= 1 && nums[c] * steps[c] <= spikes.Length1
    requires forall c, p :: 0 <= c < spikes.Length0 && 0 <= p < spikes.Length1 ==> spikes[c, p] == 0
    ensures forall c :: 0 <= c < spikes.Length0 ==> RowOf(spikes, c) == BurstRow(nums[c], steps[c], spikes.Length1)
  {
    var nb, L := spikes.Length0, spikes.Length1;
    for b := 0 to nb
      invariant forall c :: 0 <= c < b ==> RowOf(spikes, c) == BurstRow(nums[c], steps[c], L)
      invariant forall c, p :: b <= c < nb && 0 <= p < L ==> spikes[c, p] == 0
    {
      assert RowOf(spikes, b) == seq(L, _ => 0);
      FillBurst(spikes, b, nums[b], steps[b]);
    }
  }

  /** The bursts of blocks whose spans fit: spike_num and ISI per block,
      the rows written into a zero-initialised array, then flattened. */
  method EncodeBlocks(rates: seq<real>, nMax: int, tMin: int, tMax: int, length: nat) returns (out: seq<int>)
    requires forall i :: 0 <= i < |rates| ==> 0.0 <= rates[i] <= 1.0
    requires 0 <= tMin && 0 <= tMax
    requires forall i :: 0 <= i < |rates| ==> Span(rates[i], nMax, tMin, tMax) <= length
    ensures out == Concat(BurstRows(rates, nMax, tMin, tMax, length))
  {
    var nb := |rates|;
    ghost var rows := BurstRows(rates, nMax, tMin, tMax, length);
    var nums := seq(nb, i requires 0 <= i < nb => SpikeNum(rates[i], nMax));
    var steps: seq<nat> := seq(nb, i requires 0 <= i < nb => Isi(rates[i], tMin, tMax) + 1);
    assert forall c :: 0 <= c < nb ==> nums[c] * steps[c] == Span(rates[c], nMax, tMin, tMax);
    var spikes := new int[nb, length]((_, _) => 0);
    FillBursts(spikes, nums, steps);
    var flat := seq(nb, c reads spikes requires 0 <= c < nb => RowOf(spikes, c));
    assert forall c :: 0 <= c < nb ==> flat[c] == rows[c];
    assert flat == rows;
    return Concat(flat);
  }

  /** burst_encoding: the empty-signal, multiple-of-length and required-length
      checks in the order burst_encoding makes them, then the bursts of all blocks. */
  method BurstEncoding(signal: seq<real>, nMax: int, tMin: int, tMax: int, length: nat) returns (r: Result<seq<int>>)
    requires |signal| > 0 ==> length >= 1 && 0 <= tMin && 0 <= tMax
    ensures r == BurstSpec(signal, nMax, tMin, tMax, length)
  {
    if |signal| == 0 {
      return Err(EmptySignal);
    }
    if |signal| % length != 0 {
      return Err(NotMultiple);
    }
    var rates := Rates(signal, length);
    var required := RequiredLength(rates, nMax, tMin, tMax);
    if length < required {
      return Err(InsufficientLength);
    }
    var out := EncodeBlocks(rates, nMax, tMin, tMax, length);
    return Ok(out);
  }

  /** Row i of the laid-out bursts sits at offset i * L and holds max(num, 0) spikes. */
  lemma RowsBlock(rates: seq<real>, nMax: int, tMin: int, tMax: int, L: nat, i: nat)
    requires forall c :: 0 <= c < |rates| ==> 0.0 <= rates[c] <= 1.0
    requires 0 <= tMin && 0 <= tMax && L >= 1 && i < |rates|
    requires Span(rates[i], nMax, tMin, tMax) <= L
    ensures var out := Concat(BurstRows(rates, nMax, tMin, tMax, L));
      0 <= i * L && i * L + L <= |out|
      && Isi(rates[i], tMin, tMax) >= 0
      && out[i * L..i * L + L] == BurstRow(SpikeNum(rates[i], nMax), Isi(rates[i], tMin, tMax) + 1, L)
      && Count(out[i * L..i * L + L], 1) == (if SpikeNum(rates[i], nMax) > 0 then SpikeNum(rates[i], nMax) else 0)
  {
    var rows := BurstRows(rates, nMax, tMin, tMax, L);
    ConcatBlock(rows, L, i);
    var num, isi := SpikeNum(rates[i], nMax), Isi(rates[i], tMin, tMax);
    BurstRowCount(num, isi + 1, L);
  }

  /** A row at rate 0 is all zeros. */
  lemma RowsSilent(rates: seq<real>, nMax: int, tMin: int, tMax: int, L: nat, i: nat)
    requires forall c :: 0 <= c < |rates| ==> 0.0 <= rates[c] <= 1.0
    requires 0 <= tMin && 0 <= tMax && L >= 1 && i < |rates| && rates[i] == 0.0
    ensures var out := Concat(BurstRows(rates, nMax, tMin, tMax, L));
      0 <= i * L && i * L + L <= |out| && out[i * L..i * L + L] == seq(L, _ => 0)
  {
    assert SpikeNum(0.0, nMax) == 0;
    RowsBlock(rates, nMax, tMin, tMax, L, i);
    BurstRowEmpty(0, Isi(0.0, tMin, tMax) + 1, L);
  }

  /** A row at rate 1 holds n_max spikes t_min + 1 apart. */
  lemma RowsPeak(rates: seq<real>, nMax: int, tMin: int, tMax: int, L: nat, i: nat)
    requires forall c :: 0 <= c < |rates| ==> 0.0 <= rates[c] <= 1.0
    requires 0 <= tMin && 0 <= tMax && L >= 1 && i < |rates| && rates[i] == 1.0
    ensures var out := Concat(BurstRows(rates, nMax, tMin, tMax, L));
      0 <= i * L && i * L + L <= |out| && out[i * L..i * L + L] == BurstRow(nMax, tMin + 1, L)
  {
    assert SpikeNum(1.0, nMax) == nMax;
    assert Isi(1.0, tMin, tMax) == tMin;
    var rows := BurstRows(rates, nMax, tMin, tMax, L);
    ConcatBlock(rows, L, i);
  }

  /** Block i of a successful encoding is the burst of block i's rate: exactly
      max(spike_num, 0) spikes, ISI + 1 samples apart from offset 0. */
  lemma BurstBlock(s: seq<real>, nMax: int, tMin: int, tMax: int, L: nat, i: nat)
    requires |s| > 0 && L >= 1 && |s| % L == 0 && 0 <= tMin && 0 <= tMax
    requires BurstSpec(s, nMax, tMin, tMax, L).Ok? && i < |s| / L
    ensures 0 <= i * L && i * L + L <= |s|
    ensures var rate := Rates(s, L)[i];
      var num, isi := SpikeNum(rate, nMax), Isi(rate, tMin, tMax);
      var block := BurstSpec(s, nMax, tMin, tMax, L).value[i * L..i * L + L];
      isi >= 0 && block == BurstRow(num, isi + 1, L)
      && Count(block, 1) == (if num > 0 then num else 0)
  {
    BurstValue(s, nMax, tMin, tMax, L);
    RowsBlock(Rates(s, L), nMax, tMin, tMax, L, i);
  }

  /** A successful encoding is the bursts of all blocks laid end to end. */
  lemma BurstValue(s: seq<real>, nMax: int, tMin: int, tMax: int, L: nat)
    requires |s| > 0 && L >= 1 && |s| % L == 0 && 0 <= tMin && 0 <= tMax
    requires BurstSpec(s, nMax, tMin, tMax, L).Ok?
    ensures BurstSpec(s, nMax, tMin, tMax, L).value == Concat(BurstRows(Rates(s, L), nMax, tMin, tMax, L))
  {
  }

  /** A block with no positive sample gets no spike. */
  lemma SilentBlockEmpty(s: seq<real>, nMax: int, tMin: int, tMax: int, L: nat, i: nat)
    requires |s| > 0 && L >= 1 && |s| % L == 0 && 0 <= tMin && 0 <= tMax
    requires BurstSpec(s, nMax, tMin, tMax, L).Ok? && i < |s| / L
    requires Silent(Blocks(s, L)[i])
    ensures 0 <= i * L && i * L + L <= |s|
    ensures BurstSpec(s, nMax, tMin, tMax, L).value[i * L..i * L + L] == seq(L, _ => 0)
  {
    RateZeroIff(s, L, i);
    BurstValue(s, nMax, tMin, tMax, L);
    RowsSilent(Rates(s, L), nMax, tMin, tMax, L, i);
  }

  /** A block at rate 1 gets n_max spikes, t_min + 1 samples apart. */
  lemma PeakBlock(s: seq<real>, nMax: int, tMin: int, tMax: int, L: nat, i: nat)
    requires |s| > 0 && L >= 1 && |s| % L == 0 && 0 <= tMin && 0 <= tMax
    requires BurstSpec(s, nMax, tMin, tMax, L).Ok? && i < |s| / L
    requires Rates(s, L)[i] == 1.0
    ensures 0 <= i * L && i * L + L <= |s|
    ensures BurstSpec(s, nMax, tMin, tMax, L).value[i * L..i * L + L] == BurstRow(nMax, tMin + 1, L)
  {
    BurstValue(s, nMax, tMin, tMax, L);
    RowsPeak(Rates(s, L), nMax, tMin, tMax, L, i);
  }

  /** [0, 0.5, 1, 1.5, 2, 9] as one block of 6 with n_max 3 and ISIs 1 to 5:
      rate 1, so three spikes with an ISI of 1, two samples apart. */
  lemma OneBlockBurst(x: seq<real>)
    requires x == [0.0, 0.5, 1.0, 1.5, 2.0, 9.0]
    ensures BurstSpec(x, 3, 1, 5, 6) == Ok([1, 0, 1, 0, 1, 0])
  {
    assert |x| / 6 == 1;
    assert Blocks(x, 6)[0][5] == x[5] by {
      assert Blocks(x, 6) == Chunks(x, 6, 1);
      assert x[6..] == [];
    }
    RatesReachOne(x, 6, 0, 5);
    var rates := Rates(x, 6);
    assert rates[0] == 1.0;
    assert SpikeNum(1.0, 3) == 3 && Isi(1.0, 1, 5) == 1;
    var row := BurstRow(3, 2, 6);
    assert row == [1, 0, 1, 0, 1, 0];
    var rows := BurstRows(rates, 3, 1, 5, 6);
    assert rows == [row];
    assert [row][..0] == [];
    assert Concat(rows) == row;
  }

  /** [1, 1] with n_max 5 and ISIs 1 to 5 fails on a block size of 3, which
      does not divide the length, and on a block size of 2, which cannot hold
      the burst of 5 spikes spanning 10 samples. */
  lemma ShortStream(x: seq<real>)
    requires x == [1.0, 1.0]
    ensures BurstSpec(x, 5, 1, 5, 3) == Err(NotMultiple)
    ensures BurstSpec(x, 5, 1, 5, 2) == Err(InsufficientLength)
  {
    assert |x| / 2 == 1;
    assert Blocks(x, 2)[0][0] == x[0] by {
      assert Blocks(x, 2) == Chunks(x, 2, 1);
    }
    RatesReachOne(x, 2, 0, 0);
    assert Rates(x, 2)[0] == 1.0;
    assert Span(1.0, 5, 1, 5) == 10;
  }

  /** Six ones in one block of 6 with n_max 1, t_min 5 and t_max 1: rate 1
      gives spike_num 1 and ISI ceil(1 - (1 - 5)) = 5, a span of 6 that fits,
      so one spike at the block's start. */
  lemma InvertedIsiRange(x: seq<real>)
    requires x == [1.0, 1.0, 1.0, 1.0, 1.0, 1.0]
    ensures BurstSpec(x, 1, 5, 1, 6) == Ok([1, 0, 0, 0, 0, 0])
  {
    assert |x| / 6 == 1;
    assert Blocks(x, 6)[0][0] == x[0] by {
      assert Blocks(x, 6) == Chunks(x, 6, 1);
      assert x[6..] == [];
    }
    RatesReachOne(x, 6, 0, 0);
    var rates := Rates(x, 6);
    assert rates[0] == 1.0;
    assert SpikeNum(1.0, 1) == 1 && Isi(1.0, 5, 1) == 5;
    var row := BurstRow(1, 6, 6);
    assert row == [1, 0, 0, 0, 0, 0];
    var rows := BurstRows(rates, 1, 5, 1, 6);
    assert rows == [row];
    assert [row][..0] == [];
    assert Concat(rows) == row;
  }
}
