/** The reduction shared by phase encoding, time-to-first-spike, burst encoding
    and Poisson rate coding: clip negative samples to zero, average each block
    of L consecutive samples, and divide every block mean by the largest one
    when that maximum is positive. */
module BlockRate {
  import opened Common

  /** np.clip(signal, 0, None) */
  function ClipNegative(s: seq<real>): (c: seq<real>)
    ensures |c| == |s|
    ensures forall i :: 0 <= i < |s| ==> c[i] >= 0.0 && (s[i] >= 0.0 ==> c[i] == s[i])
    ensures forall i :: 0 <= i < |s| ==> (c[i] == 0.0 <==> s[i] <= 0.0)
  {
    seq(|s|, i requires 0 <= i < |s| => Max0(s[i]))
  }

  /** A length that is a multiple of L is exactly (n / L) blocks of L. */
  lemma DivExact(n: nat, L: nat)
    requires L >= 1 && n % L == 0
    ensures n == (n / L) * L
  {
  }

  /** Block i of a length-n signal cut into blocks of L ends inside the signal. */
  lemma BlockFits(n: nat, L: nat, i: nat)
    requires L >= 1 && n % L == 0 && i < n / L
    ensures 0 <= i * L && i * L + L <= n
  {
    DivExact(n, L);
    MulMonotoneInt(i + 1, n / L, L);
  }

  lemma MulPred(a: nat, L: nat)
    requires a >= 1
    ensures a * L == (a - 1) * L + L
  {
  }

  /** The first nb blocks of L samples each, which laid end to end give back
      the signal. */
  function Chunks(s: seq<real>, L: nat, nb: nat): (rows: seq<seq<real>>)
    requires L >= 1 && |s| == nb * L
    ensures |rows| == nb
    ensures forall i :: 0 <= i < nb ==> |rows[i]| == L
    ensures Concat(rows) == s
    decreases nb
  {
    if nb == 0 then []
    else
      MulPred(nb, L);
      var rest := Chunks(s[L..], L, nb - 1);
      ConcatPrepend(s[..L], rest);
      assert s[..L] + s[L..] == s;
      [s[..L]] + rest
  }

  /** A property of every sample is a property of every sample of every block. */
  lemma {:induction false} ChunksAll(s: seq<real>, L: nat, nb: nat, P: real -> bool)
    requires L >= 1 && |s| == nb * L
    requires forall k :: 0 <= k < |s| ==> P(s[k])
    ensures forall i, k :: 0 <= i < nb && 0 <= k < L ==> P(Chunks(s, L, nb)[i][k])
    decreases nb
  {
    if nb > 0 {
      MulPred(nb, L);
      ChunksAll(s[L..], L, nb - 1, P);
      var rows := Chunks(s, L, nb);
      assert rows == [s[..L]] + Chunks(s[L..], L, nb - 1);
      forall i, k | 0 <= i < nb && 0 <= k < L ensures P(rows[i][k]) {
        if i == 0 {
          assert rows[0][k] == s[k];
        } else {
          assert rows[i] == Chunks(s[L..], L, nb - 1)[i - 1];
        }
      }
    }
  }

  /** signal.reshape(-1, L): the blocks of a signal whose length is a multiple of L. */
  function Blocks(s: seq<real>, L: nat): (rows: seq<seq<real>>)
    requires L >= 1 && |s| % L == 0
    ensures |rows| == |s| / L
    ensures forall i :: 0 <= i < |rows| ==> |rows[i]| == L
  {
    DivExact(|s|, L);
    Chunks(s, L, |s| / L)
  }

  /** No sample of the row is positive: exactly the rows that clip to zeros. */
  predicate Silent(row: seq<real>)
    ensures Silent(row) <==> forall k :: 0 <= k < |row| ==> ClipNegative(row)[k] == 0.0
  {
    var c := ClipNegative(row);
    assert forall k :: 0 <= k < |row| ==> (c[k] == 0.0 <==> row[k] <= 0.0);
    forall k :: 0 <= k < |row| ==> row[k] <= 0.0
  }

  /** np.mean(np.clip(signal, 0, None).reshape(-1, L), axis=1) */
  function BlockMeans(s: seq<real>, L: nat): (m: seq<real>)
    requires L >= 1 && |s| % L == 0
    ensures |m| == |s| / L
    ensures forall i :: 0 <= i < |m| ==> m[i] >= 0.0
  {
    var rows := Blocks(s, L);
    var m := seq(|rows|, i requires 0 <= i < |rows| => Mean(ClipNegative(rows[i])));
    assert forall i :: 0 <= i < |m| ==> m[i] >= 0.0 by {
      forall i | 0 <= i < |m| ensures m[i] >= 0.0 {
        SumNonNegative(ClipNegative(rows[i]));
      }
    }
    m
  }

  /** A block's mean is zero exactly when none of its samples is positive. */
  lemma MeanZeroIff(s: seq<real>, L: nat, i: nat)
    requires L >= 1 && |s| % L == 0 && i < |s| / L
    ensures BlockMeans(s, L)[i] == 0.0 <==> Silent(Blocks(s, L)[i])
  {
    var row := Blocks(s, L)[i];
    MeanZero(ClipNegative(row));
  }

  /** signal.max() */
  function MaxOf(s: seq<real>): (m: real)
    requires |s| > 0
    ensures forall i :: 0 <= i < |s| ==> s[i] <= m
    ensures exists i :: 0 <= i < |s| && s[i] == m
  {
    if |s| == 1 then s[0]
    else
      var m' := MaxOf(s[..|s| - 1]);
      assert forall i :: 0 <= i < |s| - 1 ==> s[..|s| - 1][i] == s[i];
      if s[|s| - 1] > m' then s[|s| - 1] else m'
  }

  /** The normalised block rates of a non-empty signal whose length is a
      multiple of L: each clipped block mean divided by the largest one, or
      left as they are (all zero) when no sample is positive. */
  function Rates(s: seq<real>, L: nat): (r: seq<real>)
    requires |s| > 0 && L >= 1 && |s| % L == 0
    ensures |r| == |s| / L
    ensures forall i :: 0 <= i < |r| ==> 0.0 <= r[i] <= 1.0
  {
    var m := BlockMeans(s, L);
    var top := MaxOf(m);
    if top > 0.0 then
      assert forall i :: 0 <= i < |m| ==> 0.0 <= m[i] / top <= 1.0 by {
        forall i | 0 <= i < |m| ensures 0.0 <= m[i] / top <= 1.0 {
          DivUnit(m[i], top);
        }
      }
      seq(|m|, i requires 0 <= i < |m| => m[i] / top)
    else
      m
  }

  /** A block's rate is zero exactly when none of its samples is positive. */
  lemma RateZeroIff(s: seq<real>, L: nat, i: nat)
    requires |s| > 0 && L >= 1 && |s| % L == 0 && i < |s| / L
    ensures Rates(s, L)[i] == 0.0 <==> Silent(Blocks(s, L)[i])
  {
    var m := BlockMeans(s, L);
    var top := MaxOf(m);
    MeanZeroIff(s, L, i);
    if top > 0.0 {
      DivUnit(m[i], top);
      assert Rates(s, L)[i] == m[i] / top;
    }
  }

  /** Normalisation keeps the order of the block means. */
  lemma RatesKeepOrder(s: seq<real>, L: nat, i: nat, j: nat)
    requires |s| > 0 && L >= 1 && |s| % L == 0 && i < |s| / L && j < |s| / L
    requires BlockMeans(s, L)[i] <= BlockMeans(s, L)[j]
    ensures Rates(s, L)[i] <= Rates(s, L)[j]
  {
    var m := BlockMeans(s, L);
    var top := MaxOf(m);
    if top > 0.0 {
      DivMonotone(m[i], m[j], top);
    }
  }

  /** When some sample is positive, the busiest block has rate exactly 1. */
  lemma RatesReachOne(s: seq<real>, L: nat, i: nat, k: nat)
    requires |s| > 0 && L >= 1 && |s| % L == 0 && i < |s| / L && k < L
    requires Blocks(s, L)[i][k] > 0.0
    ensures exists j :: 0 <= j < |s| / L && Rates(s, L)[j] == 1.0
  {
    var m := BlockMeans(s, L);
    var top := MaxOf(m);
    MeanZeroIff(s, L, i);
    assert m[i] > 0.0;
    var j :| 0 <= j < |m| && m[j] == top;
    DivUnit(m[j], top);
    assert Rates(s, L)[j] == 1.0;
  }

  /** A signal with no positive sample has every rate zero. */
  lemma RatesSilent(s: seq<real>, L: nat)
    requires |s| > 0 && L >= 1 && |s| % L == 0
    requires forall k :: 0 <= k < |s| ==> s[k] <= 0.0
    ensures forall i :: 0 <= i < |s| / L ==> Rates(s, L)[i] == 0.0
  {
    DivExact(|s|, L);
    ChunksAll(s, L, |s| / L, x => x <= 0.0);
    forall i | 0 <= i < |s| / L ensures Rates(s, L)[i] == 0.0 {
      RateZeroIff(s, L, i);
    }
  }

  /** A signal that is one positive constant has every rate 1. */
  lemma RatesConstant(s: seq<real>, L: nat, c: real)
    requires |s| > 0 && L >= 1 && |s| % L == 0 && c > 0.0
    requires forall k :: 0 <= k < |s| ==> s[k] == c
    ensures forall i :: 0 <= i < |s| / L ==> Rates(s, L)[i] == 1.0
  {
    DivExact(|s|, L);
    ChunksAll(s, L, |s| / L, x => x == c);
    var rows := Blocks(s, L);
    var m := BlockMeans(s, L);
    forall i | 0 <= i < |m| ensures m[i] == c {
      MeanConstant(ClipNegative(rows[i]), c);
    }
    var top := MaxOf(m);
    assert top == c;
    forall i | 0 <= i < |m| ensures Rates(s, L)[i] == 1.0 {
      DivUnit(m[i], top);
    }
  }
}
