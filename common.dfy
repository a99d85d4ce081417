/** Vocabulary shared by all spike encoders: the errors they raise, a result
    type, sums and means over real-valued samples, the numpy operations the
    encoders rely on (searchsorted, linspace, ceil) and the flattening of
    per-block spike rows into one spike train. */
module Common {

  /** The exceptions the encoders raise, one constructor per distinct cause. */
  datatype Error =
    | EmptySignal             // ValueError: the signal has no samples
    | WindowTooLong           // ValueError: a filter window does not fit the signal
    | NotMultiple             // ValueError: the length is not a multiple of the block size
    | ThresholdCountMismatch  // ValueError: per-feature thresholds do not match the feature count
    | ThresholdNotSized       // TypeError: len() applied to an int threshold
    | IndexOutOfRange         // IndexError raised by an index past the end of an array
    | InsufficientLength      // ValueError: a burst does not fit its block
    | UndefinedName           // NameError: a name the code uses is not defined
    | NegativeWindow          // ValueError: scipy's boxcar rejects a negative window length

  datatype Result<T> = Ok(value: T) | Err(error: Error)

  function Min(a: int, b: int): int { if a <= b then a else b }

  /** max(x, 0): the least non-negative number not below x. */
  function Max0(x: real): (m: real)
    ensures m >= 0.0 && m >= x
    ensures m == x || m == 0.0
  {
    if x < 0.0 then 0.0 else x
  }

  /** np.sum; a sum of non-negative terms is non-negative. */
  function Sum(s: seq<real>): (t: real)
    ensures (forall i :: 0 <= i < |s| ==> s[i] >= 0.0) ==> t >= 0.0
  {
    assert forall i :: 0 <= i < |s| - 1 ==> s[..|s| - 1][i] == s[i];
    if s == [] then 0.0 else Sum(s[..|s| - 1]) + s[|s| - 1]
  }

  lemma {:induction false} SumAppend(a: seq<real>, b: seq<real>)
    ensures Sum(a + b) == Sum(a) + Sum(b)
  {
    if b == [] {
      assert a + b == a;
    } else {
      assert (a + b)[..|a + b| - 1] == a + b[..|b| - 1];
      SumAppend(a, b[..|b| - 1]);
    }
  }

  /** A sum of non-negative terms is non-negative, and zero exactly when every term is. */
  lemma {:induction false} SumNonNegative(s: seq<real>)
    requires forall i :: 0 <= i < |s| ==> s[i] >= 0.0
    ensures Sum(s) >= 0.0
    ensures Sum(s) == 0.0 <==> forall i :: 0 <= i < |s| ==> s[i] == 0.0
  {
    if s != [] {
      SumNonNegative(s[..|s| - 1]);
      assert forall i :: 0 <= i < |s| - 1 ==> s[..|s| - 1][i] == s[i];
    }
  }

  /** A sum of |s| copies of c. */
  lemma {:induction false} SumConstant(s: seq<real>, c: real)
    requires forall i :: 0 <= i < |s| ==> s[i] == c
    ensures Sum(s) == (|s| as real) * c
  {
    if s != [] {
      SumConstant(s[..|s| - 1], c);
    }
  }

  /** np.mean of a non-empty sequence; the mean of non-negative terms is non-negative. */
  function Mean(s: seq<real>): (m: real)
    requires |s| > 0
    ensures (forall i :: 0 <= i < |s| ==> s[i] >= 0.0) ==> m >= 0.0
  {
    Sum(s) / (|s| as real)
  }

  /** A mean of non-negative terms is zero exactly when every term is. */
  lemma MeanZero(s: seq<real>)
    requires |s| > 0 && forall i :: 0 <= i < |s| ==> s[i] >= 0.0
    ensures Mean(s) == 0.0 <==> forall i :: 0 <= i < |s| ==> s[i] == 0.0
  {
    SumNonNegative(s);
    QuotientZero(Sum(s), |s| as real);
  }

  lemma QuotientZero(a: real, d: real)
    requires d > 0.0
    ensures a / d == 0.0 <==> a == 0.0
  {
  }

  lemma MeanConstant(s: seq<real>, c: real)
    requires |s| > 0
    requires forall i :: 0 <= i < |s| ==> s[i] == c
    ensures Mean(s) == c
  {
    SumConstant(s, c);
  }

  /** Sum is monotone in every term. */
  lemma {:induction false} SumMonotone(a: seq<real>, b: seq<real>)
    requires |a| == |b| && forall i :: 0 <= i < |a| ==> a[i] <= b[i]
    ensures Sum(a) <= Sum(b)
  {
    if a != [] {
      var a', b' := a[..|a| - 1], b[..|b| - 1];
      assert forall i :: 0 <= i < |a'| ==> a'[i] == a[i] && b'[i] == b[i];
      SumMonotone(a', b');
    }
  }

  /** A sum of |s| copies of c. */
  lemma SumRepeated(s: seq<real>, c: real)
    ensures Sum(seq(|s|, _ => c)) == (|s| as real) * c
  {
    SumConstant(seq(|s|, _ => c), c);
  }

  /** Terms of at least lo sum to at least the sum of as many copies of lo. */
  lemma SumAboveRepeated(s: seq<real>, lo: real)
    requires forall i :: 0 <= i < |s| ==> lo <= s[i]
    ensures Sum(seq(|s|, _ => lo)) <= Sum(s)
  {
    SumMonotone(seq(|s|, _ => lo), s);
  }

  /** Terms of at most hi sum to at most the sum of as many copies of hi. */
  lemma SumBelowRepeated(s: seq<real>, hi: real)
    requires forall i :: 0 <= i < |s| ==> s[i] <= hi
    ensures Sum(s) <= Sum(seq(|s|, _ => hi))
  {
    SumMonotone(s, seq(|s|, _ => hi));
  }

  /** A sum of |s| terms of at least lo is at least |s| * lo. */
  lemma SumAtLeast(s: seq<real>, lo: real)
    requires forall i :: 0 <= i < |s| ==> lo <= s[i]
    ensures (|s| as real) * lo <= Sum(s)
  {
    SumAboveRepeated(s, lo);
    SumRepeated(s, lo);
  }

  /** A sum of |s| terms of at most hi is at most |s| * hi. */
  lemma SumAtMost(s: seq<real>, hi: real)
    requires forall i :: 0 <= i < |s| ==> s[i] <= hi
    ensures Sum(s) <= (|s| as real) * hi
  {
    SumBelowRepeated(s, hi);
    SumRepeated(s, hi);
  }

  /** The mean of terms between lo and hi lies between lo and hi. */
  lemma MeanBounds(s: seq<real>, lo: real, hi: real)
    requires |s| > 0
    requires forall i :: 0 <= i < |s| ==> lo <= s[i] <= hi
    ensures lo <= Mean(s) <= hi
  {
    SumAtLeast(s, lo);
    SumAtMost(s, hi);
    QuotientBounds(Sum(s), |s| as real, lo, hi);
  }

  /** A quotient a / d with d * lo <= a <= d * hi lies between lo and hi. */
  lemma QuotientBounds(a: real, d: real, lo: real, hi: real)
    requires d > 0.0 && d * lo <= a <= d * hi
    ensures lo <= a / d <= hi
  {
    var q := a / d;
    assert q * d == a;
    if q < lo {
      MulStrict(q, lo, d);
    }
    if hi < q {
      MulStrict(hi, q, d);
    }
  }

  /** np.ceil followed by a cast to int: the least integer not below x. */
  function Ceil(x: real): (c: int)
    ensures c as real >= x
    ensures (c as real) - 1.0 < x
  {
    -((-x).Floor)
  }

  /** The ceiling of a real between two whole numbers stays between them. */
  lemma CeilBetween(x: real, lo: int, hi: int)
    requires lo as real <= x <= hi as real
    ensures lo <= Ceil(x) <= hi
  {
  }

  /** A whole number compares with a real the same way the number compares with the real's ceiling. */
  lemma CeilBelow(j: int, x: real)
    ensures (j as real) < x <==> j < Ceil(x)
  {
  }

  /** A fraction of n rounds up to between 0 and n. */
  lemma CeilScaledBetween(q: real, n: int)
    requires 0.0 <= q <= 1.0 && n >= 0
    ensures 0 <= Ceil(q * (n as real)) <= n
  {
    var y := q * (n as real);
    ScaleBetween(q, n as real);
    assert 0 as real <= y <= n as real;
    CeilBetween(y, 0, n);
  }

  /** A positive fraction of a positive n rounds up to at least one. */
  lemma CeilScaledPositive(q: real, n: int)
    requires q > 0.0 && n >= 1
    ensures Ceil(q * (n as real)) >= 1
  {
    var y := q * (n as real);
    ScalePositive(q, n as real);
    CeilBelow(0, y);
  }

  /** More than n times a positive n rounds up to more than n. */
  lemma CeilScaledAbove(q: real, n: int)
    requires q > 1.0 && n >= 1
    ensures Ceil(q * (n as real)) > n
  {
    var y := q * (n as real);
    ScaleAbove(q, n as real);
    CeilBelow(n, y);
  }

  /** np.searchsorted(a, v) with side='left': the first index whose edge is at
      least v, or |a| when there is none. On sorted edges this is the number of
      edges strictly below v, which is what numpy's binary search returns. */
  function SearchSorted(a: seq<real>, v: real): (i: nat)
    ensures i <= |a|
    ensures forall j :: 0 <= j < i ==> a[j] < v
    ensures i < |a| ==> a[i] >= v
  {
    if a == [] || a[0] >= v then 0 else 1 + SearchSorted(a[1..], v)
  }

  /** The two ensures of SearchSorted pin its value down. */
  lemma SearchSortedUnique(a: seq<real>, v: real, i: nat)
    requires i <= |a|
    requires forall j :: 0 <= j < i ==> a[j] < v
    requires i < |a| ==> a[i] >= v
    ensures SearchSorted(a, v) == i
  {
  }

  /** A larger query value never gets an earlier insertion index. */
  lemma SearchSortedMonotone(a: seq<real>, v1: real, v2: real)
    requires v1 <= v2
    ensures SearchSorted(a, v1) <= SearchSorted(a, v2)
  {
  }

  /** Point a of the evenly spaced points that run from lo (a = 0) to hi (a = d). */
  function Spaced(lo: real, hi: real, d: real, a: real): real
    requires d > 0.0
  {
    lo + a / d * (hi - lo)
  }

  /** Consecutive points differ by (hi - lo) / d. */
  lemma SpacedStep(lo: real, hi: real, d: real, a: real)
    requires d > 0.0
    ensures Spaced(lo, hi, d, a + 1.0) - Spaced(lo, hi, d, a) == (hi - lo) / d
  {
    assert (a + 1.0) / d == a / d + 1.0 / d;
    assert (a / d + 1.0 / d) * (hi - lo) == a / d * (hi - lo) + 1.0 / d * (hi - lo);
    assert 1.0 / d * (hi - lo) == (hi - lo) / d;
  }

  lemma SpacedBetween(lo: real, hi: real, d: real, a: real)
    requires d > 0.0 && 0.0 <= a <= d && lo <= hi
    ensures lo <= Spaced(lo, hi, d, a) <= hi
  {
    DivUnit(a, d);
    ScaleBetween(a / d, hi - lo);
  }

  lemma SpacedBelowLast(lo: real, hi: real, d: real, a: real)
    requires d > 0.0 && 0.0 <= a < d && lo < hi
    ensures Spaced(lo, hi, d, a) < hi
  {
    DivStrict(a, d);
    ScaleBelow(a / d, hi - lo);
  }

  lemma SpacedLast(lo: real, hi: real, d: real)
    requires d > 0.0
    ensures Spaced(lo, hi, d, d) == hi
  {
    assert d / d == 1.0;
  }

  /** np.linspace(lo, hi, num): num evenly spaced points from lo to hi, both included. */
  function Linspace(lo: real, hi: real, num: nat): (r: seq<real>)
    ensures |r| == num
    ensures num >= 1 ==> r[0] == lo
    ensures num >= 2 ==> forall i :: 0 <= i < num - 1 ==> r[i + 1] - r[i] == (hi - lo) / ((num - 1) as real)
  {
    var r := seq(num, i requires 0 <= i < num => if num == 1 then lo else Spaced(lo, hi, (num - 1) as real, i as real));
    assert num >= 2 ==> forall i :: 0 <= i < num - 1 ==> r[i + 1] - r[i] == (hi - lo) / ((num - 1) as real) by {
      if num >= 2 {
        forall i | 0 <= i < num - 1 ensures r[i + 1] - r[i] == (hi - lo) / ((num - 1) as real) {
          SpacedStep(lo, hi, (num - 1) as real, i as real);
          assert (i + 1) as real == i as real + 1.0;
        }
      }
    }
    r
  }

  /** The edges of linspace(lo, hi, num) lie between lo and hi. */
  lemma LinspaceBounds(lo: real, hi: real, num: nat, j: nat)
    requires lo <= hi && j < num
    ensures lo <= Linspace(lo, hi, num)[j] <= hi
  {
    if num > 1 {
      SpacedBetween(lo, hi, (num - 1) as real, j as real);
    }
  }

  /** linspace ends at hi. */
  lemma LinspaceLast(lo: real, hi: real, num: nat)
    requires num >= 2
    ensures Linspace(lo, hi, num)[num - 1] == hi
  {
    SpacedLast(lo, hi, (num - 1) as real);
  }

  /** Every point of linspace before the last lies below hi when lo < hi. */
  lemma LinspaceBelowLast(lo: real, hi: real, num: nat, j: nat)
    requires lo < hi && j < num - 1
    ensures Linspace(lo, hi, num)[j] < hi
  {
    SpacedBelowLast(lo, hi, (num - 1) as real, j as real);
  }

  /** A fraction in [0, 1] of a non-negative width stays within the width. */
  lemma ScaleBetween(q: real, w: real)
    requires 0.0 <= q <= 1.0 && w >= 0.0
    ensures 0.0 <= q * w <= w
  {
    MulMonotone(0.0, q, w);
    MulMonotone(q, 1.0, w);
    assert 1.0 * w == w;
    assert 0.0 * w == 0.0;
  }

  lemma ScalePositive(q: real, w: real)
    requires q > 0.0 && w > 0.0
    ensures q * w > 0.0
  {
    MulStrict(0.0, q, w);
    assert 0.0 * w == 0.0;
  }

  /** Scaling a non-negative width by at least 1 never shrinks it. */
  lemma ScaleAtLeast(q: real, w: real)
    requires q >= 1.0 && w >= 0.0
    ensures q * w >= w
  {
    MulMonotone(1.0, q, w);
    assert 1.0 * w == w;
  }

  /** Scaling a positive width by more than 1 grows it. */
  lemma ScaleAbove(q: real, w: real)
    requires q > 1.0 && w > 0.0
    ensures q * w > w
  {
    MulStrict(1.0, q, w);
    assert 1.0 * w == w;
  }

  /** Scaling a positive width by less than 1 shrinks it. */
  lemma ScaleBelow(q: real, w: real)
    requires q < 1.0 && w > 0.0
    ensures q * w < w
  {
    MulStrict(q, 1.0, w);
    assert 1.0 * w == w;
  }

  lemma DivStrict(a: real, d: real)
    requires a < d && d > 0.0
    ensures a / d < 1.0
  {
    assert d / d == 1.0;
  }

  lemma MulStrict(a: real, b: real, c: real)
    requires a < b && c > 0.0
    ensures a * c < b * c
  {
  }

  lemma MulMonotone(a: real, b: real, c: real)
    requires a <= b && c >= 0.0
    ensures a * c <= b * c
  {
  }

  lemma DivMonotone(a: real, b: real, d: real)
    requires a <= b && d > 0.0
    ensures a / d <= b / d
  {
  }

  /** A quotient of a non-negative number by a larger positive one lies in [0, 1],
      is zero only for a zero numerator and is one for equal operands. */
  lemma DivUnit(a: real, d: real)
    requires 0.0 <= a <= d && d > 0.0
    ensures 0.0 <= a / d <= 1.0
    ensures a / d == 0.0 <==> a == 0.0
    ensures a == d ==> a / d == 1.0
  {
    assert d / d == 1.0;
    DivMonotone(a, d, d);
    DivMonotone(0.0, a, d);
  }

  lemma MulStrictInt(a: int, b: int, c: nat)
    requires a < b && c >= 1
    ensures a * c < b * c
  {
  }

  lemma MulMonotoneInt(a: int, b: int, c: nat)
    requires a <= b
    ensures a * c <= b * c
  {
  }

  /** The comparison the temporal-contrast encoders make of a sample with its
      baseline: +1 above base + threshold, otherwise -1 below base - threshold,
      otherwise 0. */
  function Classify(v: real, base: real, threshold: real): (e: int)
    ensures e == 1 <==> v > base + threshold
    ensures e == -1 <==> v <= base + threshold && v < base - threshold
    ensures e == 0 <==> base - threshold <= v <= base + threshold
  {
    if v > base + threshold then 1
    else if v < base - threshold then -1
    else 0
  }

  /** 2 to the power k. */
  function Pow2(k: nat): (p: nat)
    ensures p >= 1
  {
    if k == 0 then 1 else 2 * Pow2(k - 1)
  }

  lemma {:induction false} Pow2Monotone(a: nat, b: nat)
    requires a <= b
    ensures Pow2(a) <= Pow2(b)
    decreases b
  {
    if a < b {
      Pow2Monotone(a, b - 1);
    }
  }

  /** Up to 8 bits every level fits in a byte. */
  lemma Pow2Bound(k: nat)
    requires k <= 8
    ensures Pow2(k) <= 256
  {
    Pow2Monotone(k, 8);
    assert Pow2(8) == 256;
  }

  predicate IsBinary(s: seq<int>)
  {
    forall i :: 0 <= i < |s| ==> s[i] == 0 || s[i] == 1
  }

  predicate IsTernary(s: seq<int>)
  {
    forall i :: 0 <= i < |s| ==> -1 <= s[i] <= 1
  }

  /** Number of occurrences of v in s. */
  function Count(s: seq<int>, v: int): nat
  {
    if s == [] then 0 else Count(s[..|s| - 1], v) + (if s[|s| - 1] == v then 1 else 0)
  }

  /** A sequence without v counts no v. */
  lemma {:induction false} CountNone(s: seq<int>, v: int)
    requires forall i :: 0 <= i < |s| ==> s[i] != v
    ensures Count(s, v) == 0
  {
    if s != [] {
      CountNone(s[..|s| - 1], v);
    }
  }

  /** Writing v over an entry that was not v adds one v. */
  lemma {:induction false} CountUpdate(s: seq<int>, i: nat, v: int)
    requires i < |s| && s[i] != v
    ensures Count(s[i := v], v) == Count(s, v) + 1
  {
    var n := |s| - 1;
    if i < n {
      CountUpdate(s[..n], i, v);
      assert s[i := v][..n] == s[..n][i := v];
    } else {
      assert s[i := v][..n] == s[..n];
    }
  }

  /** np.reshape(-1) of a stack of rows: the rows laid end to end. */
  function Concat<T>(rows: seq<seq<T>>): seq<T>
  {
    if rows == [] then [] else Concat(rows[..|rows| - 1]) + rows[|rows| - 1]
  }

  /** Concat of a row in front of other rows. */
  lemma {:induction false} ConcatPrepend<T>(x: seq<T>, rows: seq<seq<T>>)
    ensures Concat([x] + rows) == x + Concat(rows)
  {
    if rows == [] {
      assert [x] + rows == [x];
      assert [x][..0] == [];
    } else {
      var init := rows[..|rows| - 1];
      assert ([x] + rows)[..|rows|] == [x] + init;
      ConcatPrepend(x, init);
    }
  }

  /** Rows of one length L concatenate to |rows| * L entries. */
  lemma {:induction false} ConcatLength(rows: seq<seq<int>>, L: nat)
    requires forall i :: 0 <= i < |rows| ==> |rows[i]| == L
    ensures |Concat(rows)| == |rows| * L
  {
    if rows != [] {
      var n := |rows| - 1;
      ConcatLength(rows[..n], L);
      assert (n + 1) * L == n * L + L;
    }
  }

  /** n / L rows of L entries flatten back to n entries. */
  lemma ConcatBlocksLength(rows: seq<seq<int>>, n: nat, L: nat)
    requires L >= 1 && n % L == 0 && |rows| == n / L
    requires forall i :: 0 <= i < |rows| ==> |rows[i]| == L
    ensures |Concat(rows)| == n
  {
    ConcatLength(rows, L);
    assert n == (n / L) * L;
  }

  /** Concatenating rows of one length L puts entry p of row i at index i * L + p. */
  lemma {:induction false} ConcatAt(rows: seq<seq<int>>, L: nat, i: nat, p: nat)
    requires forall k :: 0 <= k < |rows| ==> |rows[k]| == L
    requires i < |rows| && p < L
    ensures i * L + p < |Concat(rows)| && Concat(rows)[i * L + p] == rows[i][p]
  {
    var n := |rows| - 1;
    var front := rows[..n];
    ConcatLength(rows, L);
    ConcatLength(front, L);
    assert Concat(rows) == Concat(front) + rows[n];
    if i < n {
      ConcatAt(front, L, i, p);
      assert front[i] == rows[i];
    }
  }

  /** Row i of rows of one length L is the slice [i * L, i * L + L) of their concatenation. */
  lemma ConcatBlock(rows: seq<seq<int>>, L: nat, i: nat)
    requires forall k :: 0 <= k < |rows| ==> |rows[k]| == L
    requires i < |rows|
    ensures 0 <= i * L && i * L + L <= |Concat(rows)|
    ensures Concat(rows)[i * L..i * L + L] == rows[i]
  {
    ConcatLength(rows, L);
    MulMonotoneInt(0, i, L);
    MulMonotoneInt(i + 1, |rows|, L);
    forall p | 0 <= p < L ensures Concat(rows)[i * L + p] == rows[i][p] {
      ConcatAt(rows, L, i, p);
    }
  }

  /** A concatenation of binary rows is binary. */
  lemma {:induction false} ConcatBinary(rows: seq<seq<int>>)
    requires forall i :: 0 <= i < |rows| ==> IsBinary(rows[i])
    ensures IsBinary(Concat(rows))
  {
    if rows != [] {
      ConcatBinary(rows[..|rows| - 1]);
    }
  }

  /** Row b of a two-dimensional spike array. */
  function RowOf(a: array2<int>, b: nat): (row: seq<int>)
    reads a
    requires b < a.Length0
    ensures |row| == a.Length1
    ensures forall p :: 0 <= p < a.Length1 ==> row[p] == a[b, p]
  {
    seq(a.Length1, p reads a requires 0 <= p < a.Length1 => a[b, p])
  }

  /** spikes[b, p] = 1: row b gains a spike at p and every other row keeps its entries. */
  method SetSpike(spikes: array2<int>, b: nat, p: nat)
    modifies spikes
    requires b < spikes.Length0 && p < spikes.Length1
    ensures RowOf(spikes, b) == old(RowOf(spikes, b))[p := 1]
    ensures forall c, q :: 0 <= c < spikes.Length0 && 0 <= q < spikes.Length1 && c != b ==>
      spikes[c, q] == old(spikes[c, q])
  {
    spikes[b, p] := 1;
  }

  /** Rows that are all zeros lay out as all zeros. */
  lemma {:induction false} ConcatZeros(rows: seq<seq<int>>, L: nat)
    requires forall k :: 0 <= k < |rows| ==> rows[k] == seq(L, _ => 0)
    ensures Concat(rows) == seq(|rows| * L, _ => 0)
  {
    if rows != [] {
      var n := |rows| - 1;
      ConcatZeros(rows[..n], L);
      assert (n + 1) * L == n * L + L;
      assert seq(n * L, _ => 0) + seq(L, _ => 0) == seq((n + 1) * L, _ => 0);
    }
  }
}
