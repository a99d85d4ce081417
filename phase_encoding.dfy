/** phase_encoding: every block of k samples becomes a phase level, the index
    of arcsin of its normalised rate among 2^k + 1 equal bins of [0, pi/2],
    written as k big-endian bits. arcsin and pi/2 are parameters. */
module PhaseEncodingAlgorithm {
  import opened Common
  import opened BlockRate

  /** The facts about arcsin on [0, 1] the proofs use: it maps 0 to 0 and 1
      to pi/2 and never decreases. */
  ghost predicate ArcsinFacts(asin: real -> real, halfPi: real)
  {
    && halfPi > 0.0
    && asin(0.0) == 0.0
    && asin(1.0) == halfPi
    && forall x, y :: 0.0 <= x <= y <= 1.0 ==> asin(x) <= asin(y)
  }

  /** The k low bits of v, most significant first. */
  function Bits(v: nat, k: nat): (b: seq<int>)
    ensures |b| == k && IsBinary(b)
  {
    if k == 0 then [] else Bits(v / 2, k - 1) + [v % 2]
  }

  /** The number a big-endian bit sequence spells: k bits spell a number
      below 2^k. */
  function FromBits(b: seq<int>): (v: int)
    ensures IsBinary(b) ==> 0 <= v < Pow2(|b|)
  {
    assert IsBinary(b) && b != [] ==> IsBinary(b[..|b| - 1]) by {
      if IsBinary(b) && b != [] {
        assert forall i :: 0 <= i < |b| - 1 ==> b[..|b| - 1][i] == b[i];
      }
    }
    if b == [] then 0 else 2 * FromBits(b[..|b| - 1]) + b[|b| - 1]
  }

  /** Reading back k bits of a number below 2^k gives the number. */
  lemma {:induction false} BitsRoundTrip(v: nat, k: nat)
    requires v < Pow2(k)
    ensures FromBits(Bits(v, k)) == v
  {
    if k > 0 {
      BitsRoundTrip(v / 2, k - 1);
      assert Bits(v, k)[..k - 1] == Bits(v / 2, k - 1);
    }
  }

  /** Writing a binary sequence's value back in as many bits gives the sequence. */
  lemma {:induction false} FromBitsRoundTrip(b: seq<int>)
    requires IsBinary(b)
    ensures 0 <= FromBits(b) < Pow2(|b|)
    ensures Bits(FromBits(b), |b|) == b
  {
    if b != [] {
      var front := b[..|b| - 1];
      FromBitsRoundTrip(front);
      var v := FromBits(b);
      assert v / 2 == FromBits(front) && v % 2 == b[|b| - 1];
      assert b == front + [b[|b| - 1]];
    }
  }

  /** Of m + k bits, the last k are the k low bits: np.unpackbits(...)[:, -k:]. */
  lemma {:induction false} LowBits(v: nat, m: nat, k: nat)
    ensures Bits(v, m + k)[m..] == Bits(v, k)
  {
    if k > 0 {
      LowBits(v / 2, m, k - 1);
      assert Bits(v, m + k) == Bits(v / 2, m + k - 1) + [v % 2];
      assert Bits(v, m + k)[m..] == Bits(v / 2, m + k - 1)[m..] + [v % 2];
    }
  }

  /** np.clip(np.searchsorted(bins, arcsin(rate)), 0, 2^k - 1). */
  function PhaseLevel(rate: real, k: nat, asin: real -> real, halfPi: real): (level: nat)
    ensures level < Pow2(k)
  {
    var top := Pow2(k) - 1;
    var i := SearchSorted(Linspace(0.0, halfPi, Pow2(k) + 1), asin(rate));
    if i > top then top else i
  }

  /** The spikes of one block: np.unpackbits of the level cast to uint8
      (taken modulo 256), big-endian, keeping the last k of the eight bits,
      or all eight when k exceeds 8. */
  function PhaseRow(rate: real, k: nat, asin: real -> real, halfPi: real): (row: seq<int>)
    ensures |row| == Min(k, 8) && IsBinary(row)
  {
    Bits(PhaseLevel(rate, k, asin, halfPi) % 256, 8)[8 - Min(k, 8)..]
  }

  /** One row of spikes per block rate. */
  function PhaseRows(rates: seq<real>, k: nat, asin: real -> real, halfPi: real): (rows: seq<seq<int>>)
    ensures |rows| == |rates|
    ensures forall i :: 0 <= i < |rows| ==> rows[i] == PhaseRow(rates[i], k, asin, halfPi)
  {
    seq(|rates|, i requires 0 <= i < |rates| => PhaseRow(rates[i], k, asin, halfPi))
  }

  /** phase_encoding: an empty signal fails its check and a length that is not
      a multiple of k fails at the reshape. Up to 8 bits the output has one
      spike per sample; above 8 only eight survive per block. */
  function PhaseEncoding(s: seq<real>, k: nat, asin: real -> real, halfPi: real): (r: Result<seq<int>>)
    requires |s| > 0 ==> k >= 1
    ensures r == Err(EmptySignal) <==> |s| == 0
    ensures r == Err(NotMultiple) <==> |s| > 0 && |s| % k != 0
    ensures r.Ok? <==> |s| > 0 && |s| % k == 0
    ensures r.Ok? ==> |r.value| == (|s| / k) * Min(k, 8) && IsBinary(r.value)
    ensures r.Ok? && k <= 8 ==> |r.value| == |s|
  {
    if |s| == 0 then Err(EmptySignal)
    else if |s| % k != 0 then Err(NotMultiple)
    else
      var rows := PhaseRows(Rates(s, k), k, asin, halfPi);
      PhaseLength(rows, |s|, k);
      ConcatBinary(rows);
      Ok(Concat(rows))
  }

  /** n / k rows of min(k, 8) bits flatten to (n / k) * min(k, 8) spikes, n of them up to 8 bits. */
  lemma PhaseLength(rows: seq<seq<int>>, n: nat, k: nat)
    requires k >= 1 && n % k == 0 && |rows| == n / k
    requires forall i :: 0 <= i < |rows| ==> |rows[i]| == Min(k, 8)
    ensures |Concat(rows)| == (n / k) * Min(k, 8)
    ensures k <= 8 ==> |Concat(rows)| == n
  {
    ConcatLength(rows, Min(k, 8));
    DivExact(n, k);
  }

  /** Above 8 bits the uint8 cast and the slice drop samples: the output is
      shorter than the signal. */
  lemma WideLevelsShorten(s: seq<real>, k: nat, asin: real -> real, halfPi: real)
    requires |s| > 0 && k > 8 && |s| % k == 0
    ensures |PhaseEncoding(s, k, asin, halfPi).value| < |s|
  {
    var nb := |s| / k;
    DivExact(|s|, k);
    assert nb >= 1 && Min(k, 8) == 8;
    MulStrictInt(8, k, nb);
    assert 8 * nb < k * nb == |s|;
  }

  /** A block at rate 0 gets level 0. */
  lemma LevelAtZero(k: nat, asin: real -> real, halfPi: real)
    requires ArcsinFacts(asin, halfPi)
    ensures PhaseLevel(0.0, k, asin, halfPi) == 0
  {
    assert Linspace(0.0, halfPi, Pow2(k) + 1)[0] == 0.0;
  }

  /** A block at rate 1 gets the top level 2^k - 1: arcsin(1) reaches the last bin edge. */
  lemma LevelAtOne(k: nat, asin: real -> real, halfPi: real)
    requires ArcsinFacts(asin, halfPi)
    ensures PhaseLevel(1.0, k, asin, halfPi) == Pow2(k) - 1
  {
    var n := Pow2(k) + 1;
    var bins := Linspace(0.0, halfPi, n);
    LinspaceLast(0.0, halfPi, n);
    forall j | 0 <= j < n - 1 ensures bins[j] < halfPi {
      LinspaceBelowLast(0.0, halfPi, n, j);
    }
    SearchSortedUnique(bins, halfPi, n - 1);
  }

  /** A higher rate never gets a lower level. */
  lemma LevelMonotone(r1: real, r2: real, k: nat, asin: real -> real, halfPi: real)
    requires ArcsinFacts(asin, halfPi)
    requires 0.0 <= r1 <= r2 <= 1.0
    ensures PhaseLevel(r1, k, asin, halfPi) <= PhaseLevel(r2, k, asin, halfPi)
  {
    SearchSortedMonotone(Linspace(0.0, halfPi, Pow2(k) + 1), asin(r1), asin(r2));
  }

  /** The k kept bits are the k-bit big-endian form of the level. */
  lemma RowIsLevelBits(rate: real, k: nat, asin: real -> real, halfPi: real)
    requires 1 <= k <= 8
    ensures PhaseRow(rate, k, asin, halfPi) == Bits(PhaseLevel(rate, k, asin, halfPi), k)
    ensures FromBits(PhaseRow(rate, k, asin, halfPi)) == PhaseLevel(rate, k, asin, halfPi)
  {
    var level := PhaseLevel(rate, k, asin, halfPi);
    Pow2Bound(k);
    assert level % 256 == level;
    LowBits(level, 8 - k, k);
    BitsRoundTrip(level, k);
  }

  /** Above 8 bits a row holds the level modulo 256 in eight bits. */
  lemma WideRow(rate: real, k: nat, asin: real -> real, halfPi: real)
    requires k > 8
    ensures FromBits(PhaseRow(rate, k, asin, halfPi)) == PhaseLevel(rate, k, asin, halfPi) % 256
  {
    BitsRoundTrip(PhaseLevel(rate, k, asin, halfPi) % 256, 8);
  }

  /** Block i of the output, read back as a k-bit big-endian number, is the
      phase level of block i's rate. */
  lemma DecodeBlock(s: seq<real>, k: nat, asin: real -> real, halfPi: real, i: nat)
    requires 1 <= k <= 8 && |s| > 0 && |s| % k == 0 && i < |s| / k
    ensures 0 <= i * k && i * k + k <= |s|
    ensures PhaseEncoding(s, k, asin, halfPi).value[i * k..i * k + k] == Bits(PhaseLevel(Rates(s, k)[i], k, asin, halfPi), k)
    ensures FromBits(PhaseEncoding(s, k, asin, halfPi).value[i * k..i * k + k])
      == PhaseLevel(Rates(s, k)[i], k, asin, halfPi)
  {
    var rates := Rates(s, k);
    var rows := PhaseRows(rates, k, asin, halfPi);
    BlockFits(|s|, k, i);
    ConcatBlock(rows, k, i);
    RowIsLevelBits(rates[i], k, asin, halfPi);
  }

  /** A block with no positive sample is encoded as k zeros. */
  lemma SilentBlockZeros(s: seq<real>, k: nat, asin: real -> real, halfPi: real, i: nat)
    requires ArcsinFacts(asin, halfPi)
    requires 1 <= k <= 8 && |s| > 0 && |s| % k == 0 && i < |s| / k
    requires Silent(Blocks(s, k)[i])
    ensures 0 <= i * k && i * k + k <= |s|
    ensures PhaseEncoding(s, k, asin, halfPi).value[i * k..i * k + k] == seq(k, _ => 0)
  {
    RateZeroIff(s, k, i);
    LevelAtZero(k, asin, halfPi);
    DecodeBlock(s, k, asin, halfPi, i);
    ZeroBits(k);
  }

  /** Zero in any number of bits is all zeros. */
  lemma {:induction false} ZeroBits(k: nat)
    ensures Bits(0, k) == seq(k, _ => 0)
  {
    if k > 0 {
      ZeroBits(k - 1);
      assert seq(k, _ => 0) == seq(k - 1, _ => 0) + [0];
    }
  }

  /** The top level 2^k - 1 in k bits is all ones. */
  lemma {:induction false} TopBits(k: nat)
    ensures Bits(Pow2(k) - 1, k) == seq(k, _ => 1)
  {
    if k > 0 {
      TopBits(k - 1);
      assert (Pow2(k) - 1) / 2 == Pow2(k - 1) - 1 && (Pow2(k) - 1) % 2 == 1;
      assert seq(k, _ => 1) == seq(k - 1, _ => 1) + [1];
    }
  }

  /** The busiest block (rate 1) is encoded as k ones. */
  lemma PeakBlockOnes(s: seq<real>, k: nat, asin: real -> real, halfPi: real, i: nat)
    requires ArcsinFacts(asin, halfPi)
    requires 1 <= k <= 8 && |s| > 0 && |s| % k == 0 && i < |s| / k
    requires Rates(s, k)[i] == 1.0
    ensures 0 <= i * k && i * k + k <= |s|
    ensures PhaseEncoding(s, k, asin, halfPi).value[i * k..i * k + k] == seq(k, _ => 1)
  {
    BlockFits(|s|, k, i);
    LevelAtOne(k, asin, halfPi);
    DecodeBlock(s, k, asin, halfPi, i);
    TopBits(k);
  }
}
