/** bens_spiker: Ben's Spiker Algorithm over a one- or two-dimensional signal,
    run independently on every feature (column) with per-feature windows and
    thresholds. */
module BensSpikerAlgorithm {
  import opened Common
  import opened Deconvolution

  /** A signal or spike array: one-dimensional, or samples x features. */
  datatype Grid<T> = Flat(samples: seq<T>) | Table(rows: seq<seq<T>>)

  /** A parameter given once for all features, or as one value per feature. */
  datatype Broadcast<T> = Scalar(value: T) | PerFeature(values: seq<T>)

  /** A Python number: the threshold broadcast applies only to a float. */
  datatype Number = IntNumber(i: int) | FloatNumber(x: real)

  function SampleCount<T>(g: Grid<T>): nat
  {
    match g
    case Flat(s) => |s|
    case Table(rows) => |rows|
  }

  /** A one-dimensional signal is reshaped to a single feature. */
  function FeatureCount<T>(g: Grid<T>): nat
  {
    match g
    case Flat(_) => 1
    case Table(rows) => if rows == [] then 0 else |rows[0]|
  }

  /** Every row of a table has the same length, as in a numpy array. */
  predicate Rectangular<T>(g: Grid<T>)
  {
    g.Table? ==> forall t :: 0 <= t < |g.rows| ==> |g.rows[t]| == FeatureCount(g)
  }

  function Entry<T>(g: Grid<T>, t: nat, j: nat): T
    requires Rectangular(g) && t < SampleCount(g) && j < FeatureCount(g)
  {
    match g
    case Flat(s) => s[t]
    case Table(rows) => rows[t][j]
  }

  /** signal[:, j] */
  function Column<T>(g: Grid<T>, j: nat): (c: seq<T>)
    requires Rectangular(g) && j < FeatureCount(g)
    ensures |c| == SampleCount(g)
    ensures forall t :: 0 <= t < |c| ==> c[t] == Entry(g, t, j)
  {
    seq(SampleCount(g), t requires 0 <= t < SampleCount(g) => Entry(g, t, j))
  }

  /** The window lengths after broadcasting an int to every feature. */
  function Windows(window: Broadcast<int>, f: nat): (ws: seq<int>)
    ensures window.Scalar? ==> |ws| == f && forall j :: 0 <= j < f ==> ws[j] == window.value
    ensures window.PerFeature? ==> ws == window.values
  {
    match window
    case Scalar(w) => seq(f, _ => w)
    case PerFeature(l) => l
  }

  /** Every window length builds a boxcar kernel of at least one sample. */
  predicate WindowsPositive(window: Broadcast<int>)
  {
    match window
    case Scalar(w) => w >= 1
    case PerFeature(l) => forall j :: 0 <= j < |l| ==> l[j] >= 1
  }

  function NumberValue(v: Number): real
  {
    match v
    case IntNumber(i) => i as real
    case FloatNumber(x) => x
  }

  /** The thresholds after broadcasting a float to every feature; an int
      scalar reaches len() and fails, and a list must have one entry per feature. */
  function Thresholds(threshold: Broadcast<Number>, f: nat): (r: Result<seq<real>>)
    ensures r.Ok? ==> |r.value| == f
    ensures r == Err(ThresholdNotSized) <==> threshold.Scalar? && threshold.value.IntNumber?
    ensures r == Err(ThresholdCountMismatch) <==> threshold.PerFeature? && |threshold.values| != f
    ensures r.Ok? && threshold.Scalar? ==> forall j :: 0 <= j < f ==> r.value[j] == threshold.value.x
    ensures r.Ok? && threshold.PerFeature? ==> forall j :: 0 <= j < f ==> r.value[j] == NumberValue(threshold.values[j])
  {
    match threshold
    case Scalar(IntNumber(_)) => Err(ThresholdNotSized)
    case Scalar(FloatNumber(x)) => Ok(seq(f, _ => x))
    case PerFeature(l) =>
      if |l| != f then Err(ThresholdCountMismatch)
      else Ok(seq(f, j requires 0 <= j < f => NumberValue(l[j])))
  }

  /** The spike column of feature j: BSA on that column alone. */
  function FeatureSpikes(signal: Grid<real>, j: nat, w: int, th: real): (s: seq<int>)
    requires Rectangular(signal) && j < FeatureCount(signal) && 1 <= w <= SampleCount(signal)
    ensures |s| == SampleCount(signal) && IsBinary(s)
  {
    Encode(Bsa(th), Column(signal, j), w)
  }

  /** Spike columns laid out with the input's shape, flattened when there is one feature. */
  function Assemble(s: nat, f: nat, cols: seq<seq<int>>): (g: Grid<int>)
    requires |cols| == f && forall j :: 0 <= j < f ==> |cols[j]| == s
    ensures Rectangular(g) && SampleCount(g) == s && (s > 0 ==> FeatureCount(g) == f)
    ensures f == 1 <==> g.Flat?
    ensures s > 0 ==> forall t, j :: 0 <= t < s && 0 <= j < f ==> Entry(g, t, j) == cols[j][t]
  {
    if f == 1 then Flat(cols[0])
    else Table(seq(s, t requires 0 <= t < s => seq(f, j requires 0 <= j < f => cols[j][t])))
  }

  /** What bens_spiker returns or raises: an empty signal fails first, and a
      result has the input's shape and holds only zeros and ones. */
  function BensSpikerSpec(signal: Grid<real>, window: Broadcast<int>, threshold: Broadcast<Number>): (r: Result<Grid<int>>)
    requires Rectangular(signal)
    requires SampleCount(signal) > 0 ==> WindowsPositive(window)
    ensures SampleCount(signal) == 0 <==> r == Err(EmptySignal)
    ensures r.Ok? ==>
      Rectangular(r.value) && SampleCount(r.value) == SampleCount(signal) && FeatureCount(r.value) == FeatureCount(signal)
    ensures r.Ok? ==> forall t, j :: 0 <= t < SampleCount(signal) && 0 <= j < FeatureCount(signal) ==>
      Entry(r.value, t, j) == 0 || Entry(r.value, t, j) == 1
  {
    var s, f := SampleCount(signal), FeatureCount(signal);
    var ws := Windows(window, f);
    if s == 0 then Err(EmptySignal)
    else if exists j :: 0 <= j < |ws| && ws[j] > s then Err(WindowTooLong)
    else
      var thr := Thresholds(threshold, f);
      if thr.Err? then Err(thr.error)
      else if |ws| < f then Err(IndexOutOfRange)
      else Ok(Assemble(s, f, seq(f, j requires 0 <= j < f => FeatureSpikes(signal, j, ws[j], thr.value[j]))))
  }

  /** The column j of a two-dimensional array. */
  function ColumnOf<T>(a: array2<T>, j: nat): (c: seq<T>)
    reads a
    requires j < a.Length1
    ensures |c| == a.Length0
    ensures forall t :: 0 <= t < a.Length0 ==> c[t] == a[t, j]
  {
    seq(a.Length0, t reads a requires 0 <= t < a.Length0 => a[t, j])
  }

  /** signal_copy[lo:hi, j] -= boxcar(hi - lo) */
  method SubtractColumnKernel(residual: array2<real>, j: nat, lo: nat, hi: nat)
    requires j < residual.Length1 && lo <= hi <= residual.Length0
    modifies residual
    ensures ColumnOf(residual, j) == Lower(old(ColumnOf(residual, j)), lo, hi)
    ensures forall t, k :: 0 <= t < residual.Length0 && 0 <= k < residual.Length1 && k != j ==>
      residual[t, k] == old(residual[t, k])
  {
    forall i | lo <= i < hi {
      residual[i, j] := residual[i, j] - 1.0;
    }
  }

  /** The inner loop over positions of feature j: BSA on column j of the
      residual, writing column j of the spikes and leaving every other column alone. */
  method ScanColumn(residual: array2<real>, spikes: array2<int>, j: nat, w: nat, th: real)
    requires residual.Length0 == spikes.Length0 && residual.Length1 == spikes.Length1
    requires j < residual.Length1 && 1 <= w <= residual.Length0
    requires forall t :: 0 <= t < spikes.Length0 ==> spikes[t, j] == 0
    modifies residual, spikes
    ensures ColumnOf(spikes, j) == Encode(Bsa(th), old(ColumnOf(residual, j)), w)
    ensures forall t, k :: 0 <= t < residual.Length0 && 0 <= k < residual.Length1 && k != j ==>
      residual[t, k] == old(residual[t, k]) && spikes[t, k] == old(spikes[t, k])
  {
    ghost var x := ColumnOf(residual, j);
    var n := residual.Length0;
    var rule := Bsa(th);
    assert ColumnOf(spikes, j) == Scan(rule, x, w, 0).spikes;
    var t := 0;
    while t < n - w + 1
      invariant 0 <= t <= n - w + 1
      invariant ColumnOf(residual, j) == Scan(rule, x, w, t).residual
      invariant ColumnOf(spikes, j) == Scan(rule, x, w, t).spikes
      invariant forall i, k :: 0 <= i < n && 0 <= k < residual.Length1 && k != j ==>
        residual[i, k] == old(residual[i, k]) && spikes[i, k] == old(spikes[i, k])
    {
      ghost var next := Scan(rule, x, w, t + 1);
      var segment := ColumnOf(residual, j)[t..t + w];
      var error1 := KernelDistance(segment);
      var error2 := Magnitude(segment);
      if error1 <= error2 - th {
        SubtractColumnKernel(residual, j, t, t + w);
        spikes[t, j] := 1;
      }
      assert ColumnOf(residual, j) == next.residual && ColumnOf(spikes, j) == next.spikes;
      t := t + 1;
    }
  }

  /** bens_spiker: the checks in the order bens_spiker makes them, then one
      column scan per feature on a residual copy of the signal. */
  method BensSpiker(signal: Grid<real>, window: Broadcast<int>, threshold: Broadcast<Number>) returns (r: Result<Grid<int>>)
    requires Rectangular(signal)
    requires SampleCount(signal) > 0 ==> WindowsPositive(window)
    ensures r == BensSpikerSpec(signal, window, threshold)
  {
    var s, f := SampleCount(signal), FeatureCount(signal);
    if s == 0 {
      return Err(EmptySignal);
    }
    var ws := Windows(window, f);
    if exists j :: 0 <= j < |ws| && ws[j] > s {
      return Err(WindowTooLong);
    }
    var thr := Thresholds(threshold, f);
    if thr.Err? {
      return Err(thr.error);
    }
    if |ws| < f {
      return Err(IndexOutOfRange);
    }
    var cols := ScanFeatures(signal, ws, thr.value);
    assert cols == seq(f, j requires 0 <= j < f => FeatureSpikes(signal, j, ws[j], thr.value[j]));
    return Ok(Assemble(s, f, cols));
  }

  /** The loop over features: column j of the spikes is the BSA scan of
      column j of the signal with that feature's window and threshold. */
  method ScanFeatures(signal: Grid<real>, ws: seq<int>, ths: seq<real>) returns (cols: seq<seq<int>>)
    requires Rectangular(signal) && SampleCount(signal) > 0
    requires |ws| >= FeatureCount(signal) && |ths| == FeatureCount(signal)
    requires forall j :: 0 <= j < FeatureCount(signal) ==> 1 <= ws[j] <= SampleCount(signal)
    ensures |cols| == FeatureCount(signal)
    ensures forall j :: 0 <= j < FeatureCount(signal) ==> cols[j] == FeatureSpikes(signal, j, ws[j], ths[j])
  {
    var s, f := SampleCount(signal), FeatureCount(signal);
    var residual := new real[s, f]((t, j) requires 0 <= t < s && 0 <= j < f => Entry(signal, t, j));
    var spikes := new int[s, f]((t, j) => 0);
    var j := 0;
    while j < f
      invariant 0 <= j <= f
      invariant forall k :: 0 <= k < j ==> ColumnOf(spikes, k) == FeatureSpikes(signal, k, ws[k], ths[k])
      invariant forall t, k :: 0 <= t < s && j <= k < f ==> residual[t, k] == Entry(signal, t, k) && spikes[t, k] == 0
    {
      assert ColumnOf(residual, j) == Column(signal, j);
      ScanColumn(residual, spikes, j, ws[j], ths[j]);
      j := j + 1;
    }
    cols := seq(f, k reads spikes requires 0 <= k < f => ColumnOf(spikes, k));
  }

  /** The outcome of bens_spiker: which check fails first, and success exactly
      when every window fits, the thresholds are sized and there is a window per feature. */
  lemma BensOutcome(signal: Grid<real>, window: Broadcast<int>, threshold: Broadcast<Number>)
    requires Rectangular(signal)
    requires SampleCount(signal) > 0 ==> WindowsPositive(window)
    ensures var r, s, f := BensSpikerSpec(signal, window, threshold), SampleCount(signal), FeatureCount(signal);
      var ws := Windows(window, f);
      var fits := forall j :: 0 <= j < |ws| ==> ws[j] <= s;
      (r == Err(EmptySignal) <==> s == 0)
      && (r == Err(WindowTooLong) <==> s > 0 && !fits)
      && (r == Err(ThresholdNotSized) <==> s > 0 && fits && threshold.Scalar? && threshold.value.IntNumber?)
      && (r == Err(ThresholdCountMismatch) <==> s > 0 && fits && threshold.PerFeature? && |threshold.values| != f)
      && (r.Ok? <==> s > 0 && fits && Thresholds(threshold, f).Ok? && |ws| >= f)
  {
  }

  /** A successful result has the input's shape, is flattened exactly for one
      feature, and holds in column j the BSA spikes of column j alone, with
      that feature's window and threshold. */
  lemma BensPerFeature(signal: Grid<real>, window: Broadcast<int>, threshold: Broadcast<Number>)
    requires Rectangular(signal)
    requires SampleCount(signal) > 0 ==> WindowsPositive(window)
    requires BensSpikerSpec(signal, window, threshold).Ok?
    ensures var g, s, f := BensSpikerSpec(signal, window, threshold).value, SampleCount(signal), FeatureCount(signal);
      var ws, ths := Windows(window, f), Thresholds(threshold, f).value;
      Rectangular(g) && SampleCount(g) == s && FeatureCount(g) == f && (g.Flat? <==> f == 1)
      && forall t, j :: 0 <= t < s && 0 <= j < f ==>
        1 <= ws[j] <= s && Entry(g, t, j) == Encode(Bsa(ths[j]), Column(signal, j), ws[j])[t]
  {
    var s, f := SampleCount(signal), FeatureCount(signal);
    var ws, ths := Windows(window, f), Thresholds(threshold, f).value;
    var cols := seq(f, j requires 0 <= j < f => FeatureSpikes(signal, j, ws[j], ths[j]));
    assert BensSpikerSpec(signal, window, threshold).value == Assemble(s, f, cols);
  }

  /** Features do not interact: two signals of one shape whose column j agrees
      get the same spikes in column j. */
  lemma FeatureIndependence(a: Grid<real>, b: Grid<real>, window: Broadcast<int>, threshold: Broadcast<Number>, j: nat)
    requires Rectangular(a) && Rectangular(b)
    requires SampleCount(a) > 0 ==> WindowsPositive(window)
    requires SampleCount(a) == SampleCount(b) && FeatureCount(a) == FeatureCount(b) && j < FeatureCount(a)
    requires Column(a, j) == Column(b, j)
    requires BensSpikerSpec(a, window, threshold).Ok?
    ensures BensSpikerSpec(b, window, threshold).Ok?
    ensures forall t :: 0 <= t < SampleCount(a) ==>
      Entry(BensSpikerSpec(a, window, threshold).value, t, j) == Entry(BensSpikerSpec(b, window, threshold).value, t, j)
  {
    BensOutcome(a, window, threshold);
    BensOutcome(b, window, threshold);
    BensPerFeature(a, window, threshold);
    BensPerFeature(b, window, threshold);
  }

  /** On a one-dimensional signal with scalar parameters the result is the BSA
      spike train ben_spiker computes, here also for a window as long as the signal. */
  lemma OneFeature(x: seq<real>, w: int, th: real)
    requires 1 <= w <= |x|
    ensures BensSpikerSpec(Flat(x), Scalar(w), Scalar(FloatNumber(th))) == Ok(Flat(Encode(Bsa(th), x, w)))
  {
    assert Column(Flat(x), 0) == x;
    BensPerFeature(Flat(x), Scalar(w), Scalar(FloatNumber(th)));
  }

  /** The five windows the scan of the documented example meets, compared
      with the kernel and with zero at threshold 0.5. */
  lemma DocExampleWindows()
    ensures !Matches(Bsa(0.5), [0.1, 0.2, 0.3])
    ensures !Matches(Bsa(0.5), [0.2, 0.3, 1.0])
    ensures Matches(Bsa(0.5), [0.3, 1.0, 0.5])
    ensures !Matches(Bsa(0.5), [0.0, -0.5, 0.3])
    ensures !Matches(Bsa(0.5), [-0.5, 0.3, 0.1])
  {
    WindowSums(0.1, 0.2, 0.3);
    WindowSums(0.2, 0.3, 1.0);
    WindowSums(0.3, 1.0, 0.5);
    WindowSums(0.0, -0.5, 0.3);
    WindowSums(-0.5, 0.3, 0.1);
  }

  /** The first two windows of the documented example do not spike. */
  lemma DocExampleStart(x: seq<real>)
    requires x == [0.1, 0.2, 0.3, 1.0, 0.5, 0.3, 0.1]
    ensures Scan(Bsa(0.5), x, 3, 2) == State(x, seq(7, _ => 0))
  {
    var s := seq(7, _ => 0);
    DocExampleWindows();
    assert Scan(Bsa(0.5), x, 3, 0) == State(x, s);
    ScanSkip(Bsa(0.5), x, 3, 0, x, s) by {
      assert x[0..3] == [0.1, 0.2, 0.3];
    }
    ScanSkip(Bsa(0.5), x, 3, 1, x, s) by {
      assert x[1..4] == [0.2, 0.3, 1.0];
    }
  }

  /** The third window of the documented example is closer to the kernel than
      to zero by the threshold and spikes. */
  lemma DocExamplePrefix(x: seq<real>)
    requires x == [0.1, 0.2, 0.3, 1.0, 0.5, 0.3, 0.1]
    ensures Scan(Bsa(0.5), x, 3, 3) == State([0.1, 0.2, -0.7, 0.0, -0.5, 0.3, 0.1], [0, 0, 1, 0, 0, 0, 0])
  {
    var s := seq(7, _ => 0);
    DocExampleStart(x);
    ScanMatch(Bsa(0.5), x, 3, 2, x, s) by {
      assert x[2..5] == [0.3, 1.0, 0.5];
      DocExampleWindows();
    }
    assert Lower(x, 2, 5) == [0.1, 0.2, -0.7, 0.0, -0.5, 0.3, 0.1];
    assert s[2 := 1] == [0, 0, 1, 0, 0, 0, 0];
  }

  /** The documented example on its single column. */
  lemma DocExampleColumn(x: seq<real>)
    requires x == [0.1, 0.2, 0.3, 1.0, 0.5, 0.3, 0.1]
    ensures Encode(Bsa(0.5), x, 3) == [0, 0, 1, 0, 0, 0, 0]
  {
    var r, s := [0.1, 0.2, -0.7, 0.0, -0.5, 0.3, 0.1], [0, 0, 1, 0, 0, 0, 0];
    DocExamplePrefix(x);
    DocExampleWindows();
    ScanSkip(Bsa(0.5), x, 3, 3, r, s) by {
      assert r[3..6] == [0.0, -0.5, 0.3];
    }
    ScanSkip(Bsa(0.5), x, 3, 4, r, s) by {
      assert r[4..7] == [-0.5, 0.3, 0.1];
    }
  }

  /** The documented example: window 3 and threshold 0.5 on a seven-sample signal. */
  lemma DocExample(x: seq<real>)
    requires x == [0.1, 0.2, 0.3, 1.0, 0.5, 0.3, 0.1]
    ensures BensSpikerSpec(Flat(x), Scalar(3), Scalar(FloatNumber(0.5))) == Ok(Flat([0, 0, 1, 0, 0, 0, 0]))
  {
    OneFeature(x, 3, 0.5);
    DocExampleColumn(x);
  }
}
