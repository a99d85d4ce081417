/** time_to_first_spike: every block of L samples gets exactly one spike,
    placed earlier the higher the block's normalised rate. The natural
    logarithm is a parameter. */
module TimeToSpikeAlgorithm {
  import opened Common
  import opened BlockRate

  /** The facts about the natural logarithm the proofs use: ln(1) = 0 and it
      never decreases on positive arguments. */
  ghost predicate LnFacts(ln: real -> real)
  {
    && ln(1.0) == 0.0
    && forall x, y :: 0.0 < x <= y ==> ln(x) <= ln(y)
  }

  /** np.where(signal > 0, 0.1 * np.log(1 / signal), 2): a rate in (0, 1]
      has a non-negative intensity, zero at rate 1, and a silent block the
      intensity 2 that lies above every level. */
  function Intensity(rate: real, ln: real -> real): (v: real)
    ensures LnFacts(ln) && 0.0 < rate <= 1.0 ==> v >= 0.0
    ensures LnFacts(ln) && rate == 1.0 ==> v == 0.0
    ensures rate <= 0.0 ==> v > 1.0
  {
    assert LnFacts(ln) && 0.0 < rate <= 1.0 ==> ln(1.0 / rate) >= 0.0 by {
      if LnFacts(ln) && 0.0 < rate <= 1.0 {
        ReciprocalAntitone(rate, 1.0);
        assert ln(1.0) <= ln(1.0 / rate);
      }
    }
    if rate > 0.0 then 0.1 * ln(1.0 / rate) else 2.0
  }

  /** np.clip(np.searchsorted(np.linspace(0, 1, L), intensity), 0, L - 1) */
  function TtfsLevel(rate: real, L: nat, ln: real -> real): (level: nat)
    requires L >= 1
    ensures level < L
  {
    var i := SearchSorted(Linspace(0.0, 1.0, L), Intensity(rate, ln));
    if i > L - 1 then L - 1 else i
  }

  /** A row of L zeros with a single 1 at position j. */
  function OneHot(L: nat, j: nat): (row: seq<int>)
    ensures |row| == L && IsBinary(row)
    ensures forall p :: 0 <= p < L ==> (row[p] == 1 <==> p == j)
  {
    seq(L, p requires 0 <= p < L => if p == j then 1 else 0)
  }

  /** A row built for a position inside it holds exactly one spike. */
  lemma {:induction false} OneHotCount(L: nat, j: nat)
    requires j < L
    ensures Count(OneHot(L, j), 1) == 1
  {
    if j < L - 1 {
      OneHotCount(L - 1, j);
      assert OneHot(L, j)[..L - 1] == OneHot(L - 1, j);
    } else {
      OneHotNone(L - 1, j);
      assert OneHot(L, j)[..L - 1] == OneHot(L - 1, j);
    }
  }

  /** A row built for a position past its end holds no spike. */
  lemma {:induction false} OneHotNone(L: nat, j: nat)
    requires j >= L
    ensures Count(OneHot(L, j), 1) == 0
  {
    if L > 0 {
      OneHotNone(L - 1, j);
      assert OneHot(L, j)[..L - 1] == OneHot(L - 1, j);
    }
  }

  /** One one-hot row per block rate. */
  function TtfsRows(rates: seq<real>, L: nat, ln: real -> real): (rows: seq<seq<int>>)
    requires L >= 1
    ensures |rows| == |rates|
    ensures forall i :: 0 <= i < |rows| ==> rows[i] == OneHot(L, TtfsLevel(rates[i], L, ln))
  {
    seq(|rates|, i requires 0 <= i < |rates| => OneHot(L, TtfsLevel(rates[i], L, ln)))
  }

  /** time_to_first_spike: an empty signal and a length that is not a
      multiple of the interval fail their checks. */
  function TimeToFirstSpike(s: seq<real>, L: nat, ln: real -> real): (r: Result<seq<int>>)
    requires |s| > 0 ==> L >= 1
    ensures r == Err(EmptySignal) <==> |s| == 0
    ensures r == Err(NotMultiple) <==> |s| > 0 && |s| % L != 0
    ensures r.Ok? <==> |s| > 0 && |s| % L == 0
    ensures r.Ok? ==> |r.value| == |s| && IsBinary(r.value)
  {
    if |s| == 0 then Err(EmptySignal)
    else if |s| % L != 0 then Err(NotMultiple)
    else
      var rows := TtfsRows(Rates(s, L), L, ln);
      ConcatBlocksLength(rows, |s|, L);
      ConcatBinary(rows);
      Ok(Concat(rows))
  }

  /** A signal that passes both checks encodes to its rows laid end to end. */
  lemma TtfsValue(s: seq<real>, L: nat, ln: real -> real)
    requires |s| > 0 && L >= 1 && |s| % L == 0
    ensures TimeToFirstSpike(s, L, ln) == Ok(Concat(TtfsRows(Rates(s, L), L, ln)))
  {
  }

  /** Block i of the output holds exactly one spike, at the level of block i's rate. */
  lemma BlockSpike(s: seq<real>, L: nat, ln: real -> real, i: nat)
    requires |s| > 0 && L >= 1 && |s| % L == 0 && i < |s| / L
    ensures 0 <= i * L && i * L + L <= |s|
    ensures TimeToFirstSpike(s, L, ln).value[i * L..i * L + L] == OneHot(L, TtfsLevel(Rates(s, L)[i], L, ln))
    ensures Count(TimeToFirstSpike(s, L, ln).value[i * L..i * L + L], 1) == 1
  {
    BlockFits(|s|, L, i);
    var rows := TtfsRows(Rates(s, L), L, ln);
    ConcatBlock(rows, L, i);
    OneHotCount(L, TtfsLevel(Rates(s, L)[i], L, ln));
  }

  /** A silent block (rate 0, intensity 2) spikes at the last position. */
  lemma LevelAtZero(L: nat, ln: real -> real)
    requires L >= 1
    ensures TtfsLevel(0.0, L, ln) == L - 1
  {
    var bins := Linspace(0.0, 1.0, L);
    forall j | 0 <= j < L ensures bins[j] < 2.0 {
      LinspaceBounds(0.0, 1.0, L, j);
    }
    SearchSortedUnique(bins, 2.0, L);
  }

  /** The busiest block (rate 1, intensity 0) spikes at the first position. */
  lemma LevelAtOne(L: nat, ln: real -> real)
    requires LnFacts(ln) && L >= 1
    ensures TtfsLevel(1.0, L, ln) == 0
  {
    assert Intensity(1.0, ln) == 0.0;
    assert Linspace(0.0, 1.0, L)[0] == 0.0;
    SearchSortedUnique(Linspace(0.0, 1.0, L), 0.0, 0);
  }

  lemma ReciprocalAntitone(a: real, b: real)
    requires 0.0 < a <= b
    ensures 0.0 < 1.0 / b <= 1.0 / a
  {
    MulMonotone(a, b, 1.0 / b);
    assert b * (1.0 / b) == 1.0;
    MulMonotone(a * (1.0 / b), 1.0, 1.0 / a);
    assert a * (1.0 / a) == 1.0;
  }

  /** A higher rate never spikes later. */
  lemma LevelMonotone(r1: real, r2: real, L: nat, ln: real -> real)
    requires LnFacts(ln) && L >= 1
    requires 0.0 <= r1 <= r2
    ensures TtfsLevel(r2, L, ln) <= TtfsLevel(r1, L, ln)
  {
    if r1 > 0.0 {
      ReciprocalAntitone(r1, r2);
      assert ln(1.0 / r2) <= ln(1.0 / r1);
      assert Intensity(r2, ln) <= Intensity(r1, ln);
      SearchSortedMonotone(Linspace(0.0, 1.0, L), Intensity(r2, ln), Intensity(r1, ln));
    }
  }

  /** Three equal two-entry rows laid end to end. */
  lemma ConcatThree(rows: seq<seq<int>>, a: int, b: int)
    requires rows == [[a, b], [a, b], [a, b]]
    ensures Concat(rows) == [a, b, a, b, a, b]
  {
    var row := [a, b];
    assert [row][..0] == [];
    assert Concat([row]) == row;
    assert [row, row][..1] == [row];
    assert Concat([row, row]) == row + row;
    assert rows[..2] == [row, row];
  }

  /** The rows of a signal of zeros: every interval spikes at its end. */
  lemma ZeroRows(x: seq<real>, ln: real -> real)
    requires x == [0.0, 0.0, 0.0, 0.0, 0.0, 0.0]
    ensures TtfsRows(Rates(x, 2), 2, ln) == [[0, 1], [0, 1], [0, 1]]
  {
    assert |x| / 2 == 3;
    RatesSilent(x, 2);
    var rates := Rates(x, 2);
    assert rates[0] == 0.0 && rates[1] == 0.0 && rates[2] == 0.0;
    LevelAtZero(2, ln);
    assert TtfsRows(rates, 2, ln) == [OneHot(2, 1), OneHot(2, 1), OneHot(2, 1)];
    assert OneHot(2, 1) == [0, 1];
  }

  /** A signal of zeros spikes at the end of every interval. */
  lemma ZeroSignal(x: seq<real>, ln: real -> real)
    requires x == [0.0, 0.0, 0.0, 0.0, 0.0, 0.0]
    ensures TimeToFirstSpike(x, 2, ln) == Ok([0, 1, 0, 1, 0, 1])
  {
    TtfsValue(x, 2, ln);
    ZeroRows(x, ln);
    ConcatThree(TtfsRows(Rates(x, 2), 2, ln), 0, 1);
  }

  /** The rows of a constant positive signal: every interval spikes at its start. */
  lemma ConstantRows(x: seq<real>, ln: real -> real)
    requires LnFacts(ln)
    requires x == [3.0, 3.0, 3.0, 3.0, 3.0, 3.0]
    ensures TtfsRows(Rates(x, 2), 2, ln) == [[1, 0], [1, 0], [1, 0]]
  {
    assert |x| / 2 == 3;
    RatesConstant(x, 2, 3.0);
    var rates := Rates(x, 2);
    assert rates[0] == 1.0 && rates[1] == 1.0 && rates[2] == 1.0;
    LevelAtOne(2, ln);
    assert TtfsRows(rates, 2, ln) == [OneHot(2, 0), OneHot(2, 0), OneHot(2, 0)];
    assert OneHot(2, 0) == [1, 0];
  }

  /** A constant positive signal spikes at the start of every interval. */
  lemma ConstantSignal(x: seq<real>, ln: real -> real)
    requires LnFacts(ln)
    requires x == [3.0, 3.0, 3.0, 3.0, 3.0, 3.0]
    ensures TimeToFirstSpike(x, 2, ln) == Ok([1, 0, 1, 0, 1, 0])
  {
    TtfsValue(x, 2, ln);
    ConstantRows(x, ln);
    ConcatThree(TtfsRows(Rates(x, 2), 2, ln), 1, 0);
  }
}
