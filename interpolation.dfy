/**
 * Colour selection for ridgeline traces (src/ridgeplot/_color/interpolation.py):
 * the interpolation context derived from the densities, the five solid
 * colormode strategies that place every trace at a position in [0, 1], the
 * colour lookup in a colour scale, and the dispatch that produces one fill
 * per trace.
 */
module Interpolation {
  import opened Wrappers
  import opened Errors
  import opened Seqs
  import opened Utils

  /** One (x, y) sample of a density curve. */
  type Point = (real, real)
  /** One density trace: its samples in order. */
  type Trace = seq<Point>
  /** Rows of traces; the traces of a row share a vertical position. */
  type Densities = seq<seq<Trace>>
  /** One colour-scale position per trace, shaped like the densities. */
  type Interpolants = seq<seq<real>>

  /** The x values of a trace (the first result of zip(*trace)). */
  function Xs(t: Trace): seq<real>
  {
    seq(|t|, k requires 0 <= k < |t| => t[k].0)
  }

  /** The y values of a trace (the second result of zip(*trace)). */
  function Ys(t: Trace): seq<real>
  {
    seq(|t|, k requires 0 <= k < |t| => t[k].1)
  }

  // ---------------------------------------------------------------------------
  // InterpolationContext

  datatype Context = Context(densities: Densities, nRows: int, nTraces: int, xMin: real, xMax: real)

  /** The counts of a context agree with its densities, as from_densities makes them. */
  predicate ValidContext(ctx: Context)
  {
    ctx.nRows == |ctx.densities| && ctx.nTraces == TotalLength(ctx.densities)
  }

  /** A trace as the (xs, ys) array-like that get_xy_extrema expects. */
  function TraceArray(t: Trace): ArrayLike
  {
    [Xs(t), Ys(t)]
  }

  function TraceArrayRows(d: Densities): (rows: seq<seq<ArrayLike>>)
    ensures SameShape(rows, d)
  {
    seq(|d|, i requires 0 <= i < |d| => seq(|d[i]|, j requires 0 <= j < |d[i]| => TraceArray(d[i][j])))
  }

  /** Every trace of every row, in row-major order, as an array-like. */
  function TraceArrays(d: Densities): seq<ArrayLike>
  {
    Flatten(TraceArrayRows(d))
  }

  /**
   * InterpolationContext.from_densities.
   *
   * As written, the source calls get_xy_extrema(densities=densities): the
   * keyword does not match the parameter name `arrays`, and the elements it
   * would iterate are rows of traces, not (xs, ys) pairs. The model makes the
   * evidently intended call, with one [xs, ys] array-like per trace, so that
   * x_min and x_max are the extrema of the x values of all points.
   */
  function FromDensities(d: Densities): (r: Result<Context, Error>)
    ensures r.Success? ==> r.value.densities == d && r.value.nRows == |d| && r.value.nTraces == |Flatten(d)|
  {
    match XyExtrema(TraceArrays(d))
    case Failure(e) => Failure(e)
    case Success(e) => Success(Context(d, |d|, TotalLength(d), e.xMin, e.xMax))
  }

  lemma {:induction false} SameShapeTotalLength<A, B>(a: seq<seq<A>>, b: seq<seq<B>>)
    requires SameShape(a, b)
    ensures TotalLength(a) == TotalLength(b)
  {
    if a != [] {
      SameShapeTotalLength(a[..|a| - 1], b[..|b| - 1]);
    }
  }

  /** The array-like of trace (i, j) and where it sits among all of them. */
  lemma TraceArrayAt(d: Densities, i: nat, j: nat) returns (a: nat)
    requires i < |d| && j < |d[i]|
    ensures a < |TraceArrays(d)| && TraceArrays(d)[a] == TraceArray(d[i][j])
  {
    FlattenIndex(TraceArrayRows(d), i, j);
    a := TotalLength(TraceArrayRows(d)[..i]) + j;
  }

  /** Every array-like comes from some trace. */
  lemma TraceArrayFrom(d: Densities, a: nat) returns (i: nat, j: nat)
    requires a < |TraceArrays(d)|
    ensures i < |d| && j < |d[i]| && TraceArrays(d)[a] == TraceArray(d[i][j])
  {
    var rows := TraceArrayRows(d);
    FlattenMember(rows, TraceArrays(d)[a]);
    i, j :| 0 <= i < |rows| && 0 <= j < |rows[i]| && rows[i][j] == TraceArrays(d)[a];
  }

  /**
   * from_densities fails exactly when no trace exists or some trace has no
   * points; an empty trace is reported as an empty array, the absence of
   * traces as an empty array sequence.
   */
  lemma FromDensitiesFailure(d: Densities)
    ensures FromDensities(d).Failure? <==>
      TotalLength(d) == 0 || exists i, j :: 0 <= i < |d| && 0 <= j < |d[i]| && d[i][j] == []
    ensures (exists i, j :: 0 <= i < |d| && 0 <= j < |d[i]| && d[i][j] == []) ==>
      FromDensities(d) == Failure(EmptyArray)
    ensures TotalLength(d) == 0 ==> FromDensities(d) == Failure(EmptyArraySequence)
  {
    var arrays := TraceArrays(d);
    SameShapeTotalLength(TraceArrayRows(d), d);
    XyExtremaFailure(arrays);
    if exists i, j :: 0 <= i < |d| && 0 <= j < |d[i]| && d[i][j] == [] {
      var i, j :| 0 <= i < |d| && 0 <= j < |d[i]| && d[i][j] == [];
      var a := TraceArrayAt(d, i, j);
      assert !WellShaped(arrays[a]);
      var first := FirstMalformedExists(arrays, a);
      var fi, fj := TraceArrayFrom(d, first);
      assert |arrays[first]| == 2;
    } else if TotalLength(d) != 0 {
      forall a | 0 <= a < |arrays|
        ensures WellShaped(arrays[a])
      {
        var i, j := TraceArrayFrom(d, a);
        assert d[i][j] != [];
      }
    }
  }

  /**
   * On success the context is consistent with the densities, and x_min and
   * x_max are the least and the greatest x of all points of all traces.
   */
  lemma FromDensitiesExtrema(d: Densities)
    requires FromDensities(d).Success?
    ensures ValidContext(FromDensities(d).value)
    ensures var ctx := FromDensities(d).value;
      forall i, j, k :: 0 <= i < |d| && 0 <= j < |d[i]| && 0 <= k < |d[i][j]| ==>
        ctx.xMin <= d[i][j][k].0 <= ctx.xMax
    ensures var ctx := FromDensities(d).value;
      && (exists i, j, k :: 0 <= i < |d| && 0 <= j < |d[i]| && 0 <= k < |d[i][j]| && d[i][j][k].0 == ctx.xMin)
      && (exists i, j, k :: 0 <= i < |d| && 0 <= j < |d[i]| && 0 <= k < |d[i][j]| && d[i][j][k].0 == ctx.xMax)
  {
    var arrays := TraceArrays(d);
    var ctx := FromDensities(d).value;
    forall a | 0 <= a < |arrays|
      ensures |arrays[a]| == 2
    {
      var i, j := TraceArrayFrom(d, a);
    }
    XyExtremaBounds(arrays);
    forall i, j, k | 0 <= i < |d| && 0 <= j < |d[i]| && 0 <= k < |d[i][j]|
      ensures ctx.xMin <= d[i][j][k].0 <= ctx.xMax
    {
      var a := TraceArrayAt(d, i, j);
      assert arrays[a][0][k] == d[i][j][k].0;
    }
    var a, k :| 0 <= a < |arrays| && 0 <= k < |arrays[a][0]| && arrays[a][0][k] == ctx.xMin;
    var i, j := TraceArrayFrom(d, a);
    assert d[i][j][k].0 == ctx.xMin;
    var a', k' :| 0 <= a' < |arrays| && 0 <= k' < |arrays[a'][0]| && arrays[a'][0][k'] == ctx.xMax;
    var i', j' := TraceArrayFrom(d, a');
    assert d[i'][j'][k'].0 == ctx.xMax;
  }

  // ---------------------------------------------------------------------------
  // _mul and the weighted mean

  /** _mul: element-wise products, as many as the shorter tuple has elements (zip). */
  function Mul(a: seq<real>, b: seq<real>): (r: seq<real>)
    ensures |r| == if |a| <= |b| then |a| else |b|
    ensures forall k :: 0 <= k < |r| ==> r[k] == a[k] * b[k]
  {
    if a == [] || b == [] then [] else [a[0] * b[0]] + Mul(a[1..], b[1..])
  }

  /** The divisor sum(y) of a trace's weighted mean is not zero. */
  predicate Weighted(t: Trace)
  {
    Sum(Ys(t)) != 0.0
  }

  predicate NonZeroWeights(d: Densities)
  {
    forall i, j :: 0 <= i < |d| && 0 <= j < |d[i]| ==> Weighted(d[i][j])
  }

  /** sum(_mul(x, y)) / sum(y): the y-weighted mean of a trace's x values. */
  function WeightedMean(t: Trace): real
    requires Weighted(t)
  {
    Sum(Mul(Xs(t), Ys(t))) / Sum(Ys(t))
  }

  /** The weighted mean of every trace, shaped like the densities. */
  function Means(d: Densities): (m: seq<seq<real>>)
    requires NonZeroWeights(d)
    ensures SameShape(m, d)
  {
    seq(|d|, i requires 0 <= i < |d| =>
      seq(|d[i]|, j requires 0 <= j < |d[i]| => WeightedMean(d[i][j])))
  }

  /** s lies between lo and hi times the total weight w. */
  predicate WeightedBetween(s: real, w: real, lo: real, hi: real)
  {
    lo * w <= s <= hi * w
  }

  /** With non-negative weights, the weighted sum lies between lo and hi times the total weight. */
  lemma {:induction false} WeightedSumBounds(xs: seq<real>, ys: seq<real>, lo: real, hi: real)
    requires |xs| == |ys|
    requires forall k :: 0 <= k < |xs| ==> lo <= xs[k] <= hi && 0.0 <= ys[k]
    ensures WeightedBetween(Sum(Mul(xs, ys)), Sum(ys), lo, hi)
  {
    if xs != [] {
      WeightedSumBounds(xs[1..], ys[1..], lo, hi);
      SumMulFirst(xs, ys);
      WeightedStep(xs[0], ys[0], Sum(Mul(xs[1..], ys[1..])), Sum(ys[1..]), Sum(Mul(xs, ys)), Sum(ys), lo, hi);
    }
  }

  /** The weighted sum is the first product plus the weighted sum of the rest. */
  lemma SumMulFirst(xs: seq<real>, ys: seq<real>)
    requires xs != [] && ys != []
    ensures Sum(Mul(xs, ys)) == xs[0] * ys[0] + Sum(Mul(xs[1..], ys[1..]))
  {
    var rest := Mul(xs[1..], ys[1..]);
    assert ([xs[0] * ys[0]] + rest)[1..] == rest;
  }

  /** One more term of weight w at lo <= x <= hi keeps a weighted sum between its bounds. */
  lemma WeightedStep(x: real, w: real, s: real, total: real, s': real, total': real, lo: real, hi: real)
    requires lo <= x <= hi && 0.0 <= w && WeightedBetween(s, total, lo, hi)
    requires s' == x * w + s && total' == w + total
    ensures WeightedBetween(s', total', lo, hi)
  {
    MulNonNegative(x - lo, w);
    MulNonNegative(hi - x, w);
    assert (x - lo) * w == x * w - lo * w;
    assert (hi - x) * w == hi * w - x * w;
    assert lo * (w + total) == lo * w + lo * total;
    assert hi * (w + total) == hi * w + hi * total;
  }

  /** With non-negative weights of positive total, a trace's weighted mean lies within the range of its x values. */
  lemma WeightedMeanWithin(t: Trace, lo: real, hi: real)
    requires forall k :: 0 <= k < |t| ==> 0.0 <= t[k].1 && lo <= t[k].0 <= hi
    requires Sum(Ys(t)) > 0.0
    ensures Weighted(t) && lo <= WeightedMean(t) <= hi
  {
    WeightedSumBounds(Xs(t), Ys(t), lo, hi);
    QuotientWithin(Sum(Mul(Xs(t), Ys(t))), Sum(Ys(t)), lo, hi);
  }

  /** A quotient by a positive divisor lies between the bounds its dividend has in multiples of the divisor. */
  lemma QuotientWithin(s: real, w: real, lo: real, hi: real)
    requires w > 0.0 && WeightedBetween(s, w, lo, hi)
    ensures lo <= s / w <= hi
  {
    var m := s / w;
    assert m * w == s;
    assert (m - lo) * w == s - lo * w;
    assert (hi - m) * w == hi * w - s;
    if m < lo {
      MulPositive(lo - m, w);
    }
    if m > hi {
      MulPositive(m - hi, w);
    }
  }

  // ---------------------------------------------------------------------------
  // Index strategies

  /** ((n - 1) - k) / (n - 1): the position of item k of n, counting down from 1 to 0. */
  function IndexPosition(k: int, n: int): (p: real)
    requires n != 1
    ensures k == 0 ==> p == 1.0
    ensures k == n - 1 ==> p == 0.0
    ensures 0 <= k < n ==> 0.0 <= p <= 1.0
  {
    if 0 <= k < n then FractionBounds(((n - 1) - k) as real, (n - 1) as real); ((n - 1) - k) as real / (n - 1) as real
    else ((n - 1) - k) as real / (n - 1) as real
  }

  /** Later items get strictly smaller positions. */
  lemma IndexPositionDecreasing(j: int, k: int, n: int)
    requires n > 1 && j < k
    ensures IndexPosition(j, n) > IndexPosition(k, n)
  {
    var d := (n - 1) as real;
    var pj, pk := IndexPosition(j, n), IndexPosition(k, n);
    assert pj * d == ((n - 1) - j) as real && pk * d == ((n - 1) - k) as real;
    var gap := pj - pk;
    assert gap * d == (k - j) as real;
    if gap <= 0.0 {
      MulNonNegative(-gap, d);
    }
  }

  /** _interpolate_row_index: every trace of row i is placed at ((n_rows - 1) - i) / (n_rows - 1). */
  function RowIndex(ctx: Context): (ps: Interpolants)
    requires ctx.nRows != 1 || ctx.densities == []
    ensures SameShape(ps, ctx.densities)
    ensures forall i, j :: 0 <= i < |ps| && 0 <= j < |ps[i]| ==> ps[i][j] == IndexPosition(i, ctx.nRows)
  {
    seq(|ctx.densities|, i requires 0 <= i < |ctx.densities| =>
      seq(|ctx.densities[i]|, _ => IndexPosition(i, ctx.nRows)))
  }

  /**
   * Row-index positions lie in [0, 1]; the first row's traces are at 1, the
   * last row's at 0, and a row is placed strictly above every row below it.
   */
  lemma RowIndexOrder(ctx: Context)
    requires ValidContext(ctx) && ctx.nRows != 1
    ensures var ps, n := RowIndex(ctx), ctx.nRows;
      && (forall i, j :: 0 <= i < n && 0 <= j < |ps[i]| ==> 0.0 <= ps[i][j] <= 1.0)
      && (forall i, j :: 0 <= i < n && i == 0 && 0 <= j < |ps[i]| ==> ps[i][j] == 1.0)
      && (forall i, j :: 0 <= i < n && i == n - 1 && 0 <= j < |ps[i]| ==> ps[i][j] == 0.0)
      && (forall i, j, i', j' :: 0 <= i < i' < n && 0 <= j < |ps[i]| && 0 <= j' < |ps[i']| ==> ps[i][j] > ps[i'][j'])
  {
    var ps, n := RowIndex(ctx), ctx.nRows;
    forall i, j, i', j' | 0 <= i < i' < n && 0 <= j < |ps[i]| && 0 <= j' < |ps[i']|
      ensures ps[i][j] > ps[i'][j']
    {
      IndexPositionDecreasing(i, i', n);
    }
  }

  /** The positions of m consecutive items numbered from offset on, out of n. */
  function CountdownFrom(offset: int, m: nat, n: int): (r: seq<real>)
    requires n != 1 || m == 0
    ensures |r| == m && forall t :: 0 <= t < m ==> r[t] == IndexPosition(offset + t, n)
  {
    seq(m, t requires 0 <= t < m => IndexPosition(offset + t, n))
  }

  /**
   * The trace-index positions of the traces in d, numbered row by row:
   * ((n - 1) - k) / (n - 1) for the k-th trace in row-major order.
   */
  function TraceIndexPositions(d: Densities, n: int): (ps: Interpolants)
    requires n != 1 || TotalLength(d) == 0
    ensures SameShape(ps, d)
  {
    if d == [] then []
    else
      var init := d[..|d| - 1];
      var offset := TotalLength(init);
      TraceIndexPositions(init, n) + [CountdownFrom(offset, |d[|d| - 1]|, n)]
  }

  /** One more row of trace-index positions continues the numbering where the previous rows stopped. */
  lemma TraceIndexPositionsStep(d: Densities, n: int, i: nat)
    requires n != 1 || TotalLength(d) == 0
    requires i < |d|
    ensures TotalLength(d[..i + 1]) == TotalLength(d[..i]) + |d[i]| <= TotalLength(d)
    ensures TraceIndexPositions(d[..i + 1], n) == TraceIndexPositions(d[..i], n) + [CountdownFrom(TotalLength(d[..i]), |d[i]|, n)]
  {
    TotalLengthStep(d, i);
    TotalLengthPrefix(d, i + 1);
    assert d[..i + 1][..i] == d[..i];
  }

  /** Trace j of row i is numbered TotalLength(d[..i]) + j, one of the TotalLength(d) numbers. */
  lemma {:induction false} TraceIndexNumbering(d: Densities, n: int, i: nat, j: nat)
    requires n != 1 || TotalLength(d) == 0
    requires i < |d| && j < |d[i]|
    ensures TotalLength(d[..i]) + j < TotalLength(d)
    ensures TraceIndexPositions(d, n)[i][j] == IndexPosition(TotalLength(d[..i]) + j, n)
  {
    var m := |d| - 1;
    var init := d[..m];
    if i == m {
      assert d[..i] == init;
    } else {
      assert init[..i] == d[..i];
      TraceIndexNumbering(init, n, i, j);
      assert TraceIndexPositions(d, n)[i] == TraceIndexPositions(init, n)[i];
    }
  }

  /** Flattened row by row, the trace-index positions are the countdown over all traces. */
  lemma {:induction false} TraceIndexFlatten(d: Densities, n: int)
    requires n != 1 || TotalLength(d) == 0
    ensures Flatten(TraceIndexPositions(d, n)) ==
      seq(TotalLength(d), k requires 0 <= k < TotalLength(d) => IndexPosition(k, n))
  {
    if d != [] {
      var init := d[..|d| - 1];
      var ps := TraceIndexPositions(d, n);
      TraceIndexFlatten(init, n);
      assert ps[..|ps| - 1] == TraceIndexPositions(init, n);
    }
  }

  /**
   * In row-major order the trace-index positions fall strictly from 1 (the
   * first trace) to 0 (the last), all within [0, 1].
   */
  lemma TraceIndexOrder(ctx: Context)
    requires ValidContext(ctx) && ctx.nTraces != 1
    ensures var flat, n := Flatten(TraceIndexPositions(ctx.densities, ctx.nTraces)), ctx.nTraces;
      && |flat| == n
      && (forall k :: 0 <= k < n ==> 0.0 <= flat[k] <= 1.0)
      && (n > 0 ==> flat[0] == 1.0 && flat[n - 1] == 0.0)
      && (forall k, k' :: 0 <= k < k' < n ==> flat[k] > flat[k'])
  {
    var n := ctx.nTraces;
    TraceIndexFlatten(ctx.densities, n);
    var flat := Flatten(TraceIndexPositions(ctx.densities, n));
    forall k, k' | 0 <= k < k' < n
      ensures flat[k] > flat[k']
    {
      IndexPositionDecreasing(k, k', n);
    }
  }

  /** _interpolate_trace_index: numbers the traces row by row with a running counter. */
  method TraceIndex(ctx: Context) returns (ps: Interpolants)
    requires ctx.nTraces != 1 || TotalLength(ctx.densities) == 0
    ensures ps == TraceIndexPositions(ctx.densities, ctx.nTraces)
  {
    var d, n := ctx.densities, ctx.nTraces;
    ps := [];
    var ithTrace := 0;
    for i := 0 to |d|
      invariant TotalLength(d[..i]) <= TotalLength(d)
      invariant ps == TraceIndexPositions(d[..i], n)
      invariant ithTrace == TotalLength(d[..i])
    {
      TraceIndexPositionsStep(d, n, i);
      var offset := ithTrace;
      var psRow: seq<real> := [];
      for j := 0 to |d[i]|
        invariant ithTrace == offset + j
        invariant psRow == CountdownFrom(offset, j, n)
      {
        psRow := psRow + [IndexPosition(ithTrace, n)];
        ithTrace := ithTrace + 1;
      }
      ps := ps + [psRow];
    }
    assert d[..|d|] == d;
  }

  /** _interpolate_trace_index_row_wise: trace j of a row of length m is placed at ((m - 1) - j) / (m - 1). */
  function TraceIndexRowWise(ctx: Context): (ps: Interpolants)
    requires forall i :: 0 <= i < |ctx.densities| ==> |ctx.densities[i]| != 1
    ensures SameShape(ps, ctx.densities)
    ensures forall i, j :: 0 <= i < |ps| && 0 <= j < |ps[i]| ==> ps[i][j] == IndexPosition(j, |ctx.densities[i]|)
  {
    seq(|ctx.densities|, i requires 0 <= i < |ctx.densities| =>
      seq(|ctx.densities[i]|, j requires 0 <= j < |ctx.densities[i]| => IndexPosition(j, |ctx.densities[i]|)))
  }

  /** Within every row, the row-wise positions fall strictly from 1 to 0, all within [0, 1]. */
  lemma TraceIndexRowWiseOrder(ctx: Context)
    requires forall i :: 0 <= i < |ctx.densities| ==> |ctx.densities[i]| != 1
    ensures var ps := TraceIndexRowWise(ctx);
      forall i :: 0 <= i < |ps| ==>
        && (forall j :: 0 <= j < |ps[i]| ==> 0.0 <= ps[i][j] <= 1.0)
        && (|ps[i]| > 0 ==> ps[i][0] == 1.0 && ps[i][|ps[i]| - 1] == 0.0)
        && (forall j, j' :: 0 <= j < j' < |ps[i]| ==> ps[i][j] > ps[i][j'])
  {
    var ps := TraceIndexRowWise(ctx);
    forall i, j, j' | 0 <= i < |ps| && 0 <= j < j' < |ps[i]|
      ensures ps[i][j] > ps[i][j']
    {
      IndexPositionDecreasing(j, j', |ps[i]|);
    }
  }

  // ---------------------------------------------------------------------------
  // Mean strategies

  /** normalise_min_max against fixed bounds, as a function of the value. */
  function Normaliser(lo: real, hi: real): real -> Result<real, Error>
  {
    v => NormaliseMinMax(v, lo, hi)
  }

  /** What _interpolate_mean_minmax returns or raises: every mean normalised against the global x range. */
  function MeanMinmaxPositions(ctx: Context): Result<Interpolants, Error>
    requires NonZeroWeights(ctx.densities)
  {
    TryMapRows(Means(ctx.densities), Normaliser(ctx.xMin, ctx.xMax))
  }

  /** v lies in the non-empty range [lo, hi]: normalise_min_max accepts it. */
  predicate InRange(v: real, lo: real, hi: real)
  {
    lo < hi && lo <= v <= hi
  }

  /**
   * mean-minmax succeeds exactly when the x range is not empty and every
   * weighted mean lies within it.
   */
  lemma MeanMinmaxMeaning(ctx: Context)
    requires NonZeroWeights(ctx.densities)
    ensures var d, r := ctx.densities, MeanMinmaxPositions(ctx);
      r.Success? <==> forall i, j :: 0 <= i < |d| && 0 <= j < |d[i]| ==> InRange(WeightedMean(d[i][j]), ctx.xMin, ctx.xMax)
  {
    var d, m := ctx.densities, Means(ctx.densities);
    var f := Normaliser(ctx.xMin, ctx.xMax);
    forall i, j | 0 <= i < |d| && 0 <= j < |d[i]|
      ensures f(m[i][j]) == NormaliseMinMax(WeightedMean(d[i][j]), ctx.xMin, ctx.xMax)
    {
    }
  }

  /** Each mean-minmax position is in [0, 1] and scales back to its trace's weighted mean. */
  lemma MeanMinmaxValues(ctx: Context)
    requires NonZeroWeights(ctx.densities) && MeanMinmaxPositions(ctx).Success?
    ensures var d, ps := ctx.densities, MeanMinmaxPositions(ctx).value;
      && SameShape(ps, d)
      && forall i, j :: 0 <= i < |d| && 0 <= j < |d[i]| ==>
           FractionOf(ps[i][j], WeightedMean(d[i][j]), ctx.xMin, ctx.xMax)
  {
    var d := ctx.densities;
    forall i, j | 0 <= i < |d| && 0 <= j < |d[i]|
      ensures FractionOf(MeanMinmaxPositions(ctx).value[i][j], WeightedMean(d[i][j]), ctx.xMin, ctx.xMax)
    {
      MeanMinmaxAt(ctx, i, j);
    }
  }

  lemma MeanMinmaxAt(ctx: Context, i: nat, j: nat)
    requires NonZeroWeights(ctx.densities) && MeanMinmaxPositions(ctx).Success?
    requires i < |ctx.densities| && j < |ctx.densities[i]|
    ensures i < |MeanMinmaxPositions(ctx).value| && j < |MeanMinmaxPositions(ctx).value[i]|
    ensures NormaliseMinMax(WeightedMean(ctx.densities[i][j]), ctx.xMin, ctx.xMax) ==
      Success(MeanMinmaxPositions(ctx).value[i][j])
  {
    var m := Means(ctx.densities);
    assert Normaliser(ctx.xMin, ctx.xMax)(m[i][j]) == NormaliseMinMax(WeightedMean(ctx.densities[i][j]), ctx.xMin, ctx.xMax);
  }

  /** Every weight is non-negative and every trace has positive total weight. */
  predicate NonNegativeWeights(d: Densities)
  {
    forall i, j :: 0 <= i < |d| && 0 <= j < |d[i]| ==>
      Sum(Ys(d[i][j])) > 0.0 && forall k :: 0 <= k < |d[i][j]| ==> 0.0 <= d[i][j][k].1
  }

  /**
   * For a context built from densities with non-negative weights and a
   * non-empty x range, mean-minmax never fails: every mean lies in the range.
   */
  lemma MeanMinmaxSucceeds(d: Densities)
    requires FromDensities(d).Success? && NonNegativeWeights(d)
    requires FromDensities(d).value.xMin < FromDensities(d).value.xMax
    ensures NonZeroWeights(d) && MeanMinmaxPositions(FromDensities(d).value).Success?
  {
    var ctx := FromDensities(d).value;
    FromDensitiesExtrema(d);
    forall i, j | 0 <= i < |d| && 0 <= j < |d[i]|
      ensures Weighted(d[i][j]) && InRange(WeightedMean(d[i][j]), ctx.xMin, ctx.xMax)
    {
      WeightedMeanWithin(d[i][j], ctx.xMin, ctx.xMax);
    }
    MeanMinmaxMeaning(ctx);
  }

  /** _interpolate_mean_minmax: computes and normalises the means trace by trace. */
  method MeanMinmax(ctx: Context) returns (r: Result<Interpolants, Error>)
    requires NonZeroWeights(ctx.densities)
    ensures r == MeanMinmaxPositions(ctx)
  {
    var d := ctx.densities;
    ghost var means := Means(d);
    ghost var f := Normaliser(ctx.xMin, ctx.xMax);
    var ps: Interpolants := [];
    for i := 0 to |d|
      invariant TryMapRows(means[..i], f) == Success(ps)
    {
      var psRow: seq<real> := [];
      for j := 0 to |d[i]|
        invariant TryMap(means[i][..j], f) == Success(psRow)
      {
        var x, y := Xs(d[i][j]), Ys(d[i][j]);
        assert Weighted(d[i][j]);
        var p := NormaliseMinMax(Sum(Mul(x, y)) / Sum(y), ctx.xMin, ctx.xMax);
        assert p == f(means[i][j]);
        TryMapExtend(means[i], j, f);
        if p.Failure? {
          TryMapPrefixFails(means[i], j + 1, f);
          TryMapRowsExtend(means, i, f);
          TryMapRowsPrefixFails(means, i + 1, f);
          return Failure(p.error);
        }
        psRow := psRow + [p.value];
      }
      assert means[i][..|d[i]|] == means[i];
      TryMapRowsExtend(means, i, f);
      ps := ps + [psRow];
    }
    assert means[..|d|] == means;
    return Success(ps);
  }

  /** Every row of the means has at least one entry, and there is at least one row. */
  predicate NonEmptyRows(means: seq<seq<real>>)
  {
    means != [] && forall i :: 0 <= i < |means| ==> means[i] != []
  }

  /** min([min(row) for row in means]): the least of all the means. */
  function LeastMean(means: seq<seq<real>>): (lo: real)
    requires NonEmptyRows(means)
    ensures forall i, j :: 0 <= i < |means| && 0 <= j < |means[i]| ==> lo <= means[i][j]
    ensures exists i, j :: 0 <= i < |means| && 0 <= j < |means[i]| && means[i][j] == lo
  {
    var mins := seq(|means|, i requires 0 <= i < |means| => SeqMin(means[i]));
    var lo := SeqMin(mins);
    assert forall i, j :: 0 <= i < |means| && 0 <= j < |means[i]| ==> lo <= mins[i] <= means[i][j];
    var i :| 0 <= i < |mins| && mins[i] == lo;
    var j :| 0 <= j < |means[i]| && means[i][j] == lo;
    lo
  }

  /** max([max(row) for row in means]): the greatest of all the means. */
  function GreatestMean(means: seq<seq<real>>): (hi: real)
    requires NonEmptyRows(means)
    ensures forall i, j :: 0 <= i < |means| && 0 <= j < |means[i]| ==> means[i][j] <= hi
    ensures exists i, j :: 0 <= i < |means| && 0 <= j < |means[i]| && means[i][j] == hi
  {
    var maxs := seq(|means|, i requires 0 <= i < |means| => SeqMax(means[i]));
    var hi := SeqMax(maxs);
    assert forall i, j :: 0 <= i < |means| && 0 <= j < |means[i]| ==> means[i][j] <= maxs[i] <= hi;
    var i :| 0 <= i < |maxs| && maxs[i] == hi;
    var j :| 0 <= j < |means[i]| && means[i][j] == hi;
    hi
  }

  /**
   * The second half of _interpolate_mean_means: normalises the means against
   * their own least and greatest value. min() of an empty row, or of no rows,
   * raises.
   */
  function NormaliseAgainstOwnRange(means: seq<seq<real>>): Result<Interpolants, Error>
  {
    if !NonEmptyRows(means) then Failure(EmptySequence)
    else TryMapRows(means, Normaliser(LeastMean(means), GreatestMean(means)))
  }

  /** Entry (i, j) is no greater than any entry. */
  predicate IsLeast(m: seq<seq<real>>, i: nat, j: nat)
    requires i < |m| && j < |m[i]|
  {
    forall i', j' :: 0 <= i' < |m| && 0 <= j' < |m[i']| ==> m[i][j] <= m[i'][j']
  }

  /** Entry (i, j) is no less than any entry. */
  predicate IsGreatest(m: seq<seq<real>>, i: nat, j: nat)
    requires i < |m| && j < |m[i]|
  {
    forall i', j' :: 0 <= i' < |m| && 0 <= j' < |m[i']| ==> m[i'][j'] <= m[i][j]
  }

  /** All entries are equal. */
  predicate AllEqual(m: seq<seq<real>>)
  {
    forall i, j, i', j' :: 0 <= i < |m| && 0 <= j < |m[i]| && 0 <= i' < |m| && 0 <= j' < |m[i']| ==>
      m[i][j] == m[i'][j']
  }

  /**
   * Normalising against their own range fails exactly when there is no row,
   * an empty row, or all values are equal (the range is empty).
   */
  lemma NormaliseAgainstOwnRangeFailure(means: seq<seq<real>>)
    ensures NormaliseAgainstOwnRange(means).Failure? <==> !NonEmptyRows(means) || AllEqual(means)
  {
    if NonEmptyRows(means) {
      var lo, hi := LeastMean(means), GreatestMean(means);
      var f := Normaliser(lo, hi);
      if AllEqual(means) {
        assert lo == hi;
        assert !f(means[0][0]).Success?;
      } else {
        var i, j, i', j' :| 0 <= i < |means| && 0 <= j < |means[i]| && 0 <= i' < |means| && 0 <= j' < |means[i']| &&
          means[i][j] != means[i'][j'];
        assert lo < hi;
        forall i, j | 0 <= i < |means| && 0 <= j < |means[i]|
          ensures f(means[i][j]).Success?
        {
        }
      }
    }
  }

  /** Entry (i, j) of the normalised means is the normalisation of mean (i, j) against the own range. */
  lemma OwnRangeAt(means: seq<seq<real>>, i: nat, j: nat)
    requires NonEmptyRows(means) && !AllEqual(means)
    requires i < |means| && j < |means[i]|
    ensures NormaliseAgainstOwnRange(means).Success?
    ensures i < |NormaliseAgainstOwnRange(means).value| && j < |NormaliseAgainstOwnRange(means).value[i]|
    ensures NormaliseMinMax(means[i][j], LeastMean(means), GreatestMean(means)) ==
      Success(NormaliseAgainstOwnRange(means).value[i][j])
  {
    NormaliseAgainstOwnRangeFailure(means);
  }

  /**
   * Once normalised against their own range, every mean is in [0, 1], a
   * least mean goes to 0 and a greatest to 1.
   */
  lemma NormaliseAgainstOwnRangeBounds(means: seq<seq<real>>)
    requires NonEmptyRows(means) && !AllEqual(means)
    ensures NormaliseAgainstOwnRange(means).Success?
    ensures var ps := NormaliseAgainstOwnRange(means).value;
      && SameShape(ps, means)
      && (forall i, j :: 0 <= i < |means| && 0 <= j < |means[i]| ==> 0.0 <= ps[i][j] <= 1.0)
      && (forall i, j :: 0 <= i < |means| && 0 <= j < |means[i]| && IsLeast(means, i, j) ==> ps[i][j] == 0.0)
      && (forall i, j :: 0 <= i < |means| && 0 <= j < |means[i]| && IsGreatest(means, i, j) ==> ps[i][j] == 1.0)
  {
    NormaliseAgainstOwnRangeFailure(means);
    var ps := NormaliseAgainstOwnRange(means).value;
    var lo, hi := LeastMean(means), GreatestMean(means);
    forall i, j | 0 <= i < |means| && 0 <= j < |means[i]|
      ensures 0.0 <= ps[i][j] <= 1.0
      ensures IsLeast(means, i, j) ==> ps[i][j] == 0.0
      ensures IsGreatest(means, i, j) ==> ps[i][j] == 1.0
    {
      OwnRangeAt(means, i, j);
      if IsLeast(means, i, j) {
        var i0, j0 :| 0 <= i0 < |means| && 0 <= j0 < |means[i0]| && means[i0][j0] == lo;
        assert means[i][j] <= means[i0][j0];
      }
      if IsGreatest(means, i, j) {
        var i1, j1 :| 0 <= i1 < |means| && 0 <= j1 < |means[i1]| && means[i1][j1] == hi;
        assert means[i1][j1] <= means[i][j];
      }
    }
  }

  /** Normalising against their own range keeps the order of the means, in both directions. */
  lemma NormaliseAgainstOwnRangeOrder(means: seq<seq<real>>)
    requires NonEmptyRows(means) && !AllEqual(means)
    ensures NormaliseAgainstOwnRange(means).Success?
    ensures var ps := NormaliseAgainstOwnRange(means).value;
      forall i, j, i', j' :: 0 <= i < |means| && 0 <= j < |means[i]| && 0 <= i' < |means| && 0 <= j' < |means[i']| ==>
        (means[i][j] < means[i'][j'] <==> ps[i][j] < ps[i'][j'])
  {
    NormaliseAgainstOwnRangeFailure(means);
    var ps := NormaliseAgainstOwnRange(means).value;
    forall i, j, i', j' | 0 <= i < |means| && 0 <= j < |means[i]| && 0 <= i' < |means| && 0 <= j' < |means[i']|
      ensures means[i][j] < means[i'][j'] <==> ps[i][j] < ps[i'][j']
    {
      OwnRangeAt(means, i, j);
      OwnRangeAt(means, i', j');
      NormaliseMonotone(means[i][j], means[i'][j'], LeastMean(means), GreatestMean(means));
    }
  }

  /** What _interpolate_mean_means returns or raises. */
  function MeanMeansPositions(ctx: Context): Result<Interpolants, Error>
    requires NonZeroWeights(ctx.densities)
  {
    NormaliseAgainstOwnRange(Means(ctx.densities))
  }

  /** _interpolate_mean_means: collects the means row by row, then normalises them against their own range. */
  method MeanMeans(ctx: Context) returns (r: Result<Interpolants, Error>)
    requires NonZeroWeights(ctx.densities)
    ensures r == MeanMeansPositions(ctx)
  {
    var d := ctx.densities;
    var means: seq<seq<real>> := [];
    for i := 0 to |d|
      invariant means == Means(d)[..i]
    {
      var meansRow: seq<real> := [];
      for j := 0 to |d[i]|
        invariant meansRow == Means(d)[i][..j]
      {
        var x, y := Xs(d[i][j]), Ys(d[i][j]);
        assert Weighted(d[i][j]);
        meansRow := meansRow + [Sum(Mul(x, y)) / Sum(y)];
      }
      assert meansRow == Means(d)[i];
      means := means + [meansRow];
    }
    assert means == Means(d);
    r := NormaliseAgainstOwnRange(means);
  }

  // ---------------------------------------------------------------------------
  // SOLID_COLORMODE_MAPS

  datatype SolidColormode = RowIndexMode | TraceIndexMode | TraceIndexRowWiseMode | MeanMinmaxMode | MeanMeansMode

  /** The names of the solid colormodes and the strategy each selects. */
  const SolidColormodeMaps: map<string, SolidColormode> := map[
    "row-index" := RowIndexMode,
    "trace-index" := TraceIndexMode,
    "trace-index-row-wise" := TraceIndexRowWiseMode,
    "mean-minmax" := MeanMinmaxMode,
    "mean-means" := MeanMeansMode
  ]

  /** The strategy's divisions are all defined: n - 1 for the index modes, sum(y) for the mean modes. */
  predicate StrategyDefined(mode: SolidColormode, ctx: Context)
  {
    match mode
    case RowIndexMode => ctx.nRows != 1 || ctx.densities == []
    case TraceIndexMode => ctx.nTraces != 1 || TotalLength(ctx.densities) == 0
    case TraceIndexRowWiseMode => forall i :: 0 <= i < |ctx.densities| ==> |ctx.densities[i]| != 1
    case MeanMinmaxMode => NonZeroWeights(ctx.densities)
    case MeanMeansMode => NonZeroWeights(ctx.densities)
  }

  /**
   * The interpolants the selected strategy returns or raises. Whatever the
   * strategy, the positions are shaped like the densities; only the mean
   * strategies can fail.
   */
  function ColormodeInterpolants(mode: SolidColormode, ctx: Context): (r: Result<Interpolants, Error>)
    requires StrategyDefined(mode, ctx)
    ensures r.Success? ==> SameShape(r.value, ctx.densities)
    ensures r.Failure? ==> mode == MeanMinmaxMode || mode == MeanMeansMode
  {
    match mode
    case RowIndexMode => Success(RowIndex(ctx))
    case TraceIndexMode => Success(TraceIndexPositions(ctx.densities, ctx.nTraces))
    case TraceIndexRowWiseMode => Success(TraceIndexRowWise(ctx))
    case MeanMinmaxMode => MeanMinmaxPositions(ctx)
    case MeanMeansMode =>
      MeanMeansPositions(ctx)
  }

  /** For a consistent context, every strategy places every trace within [0, 1]. */
  lemma ColormodeInterpolantsInRange(mode: SolidColormode, ctx: Context)
    requires StrategyDefined(mode, ctx) && ValidContext(ctx)
    requires ColormodeInterpolants(mode, ctx).Success?
    ensures var ps := ColormodeInterpolants(mode, ctx).value;
      forall i, j :: 0 <= i < |ps| && 0 <= j < |ps[i]| ==> 0.0 <= ps[i][j] <= 1.0
  {
    var ps := ColormodeInterpolants(mode, ctx).value;
    match mode
    case RowIndexMode =>
    case TraceIndexMode =>
      forall i, j | 0 <= i < |ps| && 0 <= j < |ps[i]|
        ensures 0.0 <= ps[i][j] <= 1.0
      {
        TraceIndexNumbering(ctx.densities, ctx.nTraces, i, j);
      }
    case TraceIndexRowWiseMode =>
    case MeanMinmaxMode =>
      MeanMinmaxMeaning(ctx);
    case MeanMeansMode =>
      NormaliseAgainstOwnRangeFailure(Means(ctx.densities));
      NormaliseAgainstOwnRangeBounds(Means(ctx.densities));
  }

  // ---------------------------------------------------------------------------
  // interpolate_color

  /** An RGB colour with an optional alpha channel. */
  datatype Color = Rgb(red: real, green: real, blue: real, alpha: Option<real>)

  /** (position, colour) stops. */
  type ColorScale = seq<(real, Color)>

  /** [s for s, _ in colorscale] */
  function Positions(cs: ColorScale): (r: seq<real>)
    ensures |r| == |cs| && forall k :: 0 <= k < |cs| ==> r[k] == cs[k].0
    ensures forall v :: v in r <==> exists k :: 0 <= k < |cs| && cs[k].0 == v
  {
    seq(|cs|, k requires 0 <= k < |cs| => cs[k].0)
  }

  /** filter(lambda s: s > p, scale) */
  function Above(s: seq<real>, p: real): (r: seq<real>)
    ensures forall v :: v in r <==> v in s && p < v
  {
    if s == [] then []
    else
      assert forall v :: v in s <==> v == s[0] || v in s[1..];
      (if p < s[0] then [s[0]] else []) + Above(s[1..], p)
  }

  /** filter(lambda s: s < p, scale) */
  function Below(s: seq<real>, p: real): (r: seq<real>)
    ensures forall v :: v in r <==> v in s && v < p
  {
    if s == [] then []
    else
      assert forall v :: v in s <==> v == s[0] || v in s[1..];
      (if s[0] < p then [s[0]] else []) + Below(s[1..], p)
  }

  /** list.index: the first index holding v. */
  function IndexOf(s: seq<real>, v: real): (k: nat)
    requires v in s
    ensures k < |s| && s[k] == v
    ensures forall k' :: 0 <= k' < k ==> s[k'] != v
  {
    if s[0] == v then 0 else 1 + IndexOf(s[1..], v)
  }

  /**
   * The colour at fraction t between two colours, channel by channel
   * (plotly's find_intermediate_color with colortype "rgb"); the result
   * carries no alpha channel.
   */
  function Blend(low: Color, high: Color, t: real): Color
  {
    Rgb(low.red + t * (high.red - low.red),
        low.green + t * (high.green - low.green),
        low.blue + t * (high.blue - low.blue),
        None)
  }

  predicate Between(x: real, a: real, b: real)
  {
    (a <= x <= b) || (b <= x <= a)
  }

  lemma LerpBetween(a: real, b: real, t: real)
    requires 0.0 <= t <= 1.0
    ensures Between(a + t * (b - a), a, b)
  {
    if a <= b {
      MulNonNegative(t, b - a);
      MulNonNegative(1.0 - t, b - a);
    } else {
      MulNonNegative(t, a - b);
      MulNonNegative(1.0 - t, a - b);
    }
  }

  /** A blend at a fraction in [0, 1] lies, channel by channel, between its two colours. */
  lemma BlendBetween(low: Color, high: Color, t: real)
    requires 0.0 <= t <= 1.0
    ensures var c := Blend(low, high, t);
      && Between(c.red, low.red, high.red)
      && Between(c.green, low.green, high.green)
      && Between(c.blue, low.blue, high.blue)
  {
    LerpBetween(low.red, high.red, t);
    LerpBetween(low.green, high.green, t);
    LerpBetween(low.blue, high.blue, t);
  }

  predicate IsStop(cs: ColorScale, p: real)
  {
    exists k :: 0 <= k < |cs| && cs[k].0 == p
  }

  /** k is the first stop at position p. */
  predicate FirstStopAt(cs: ColorScale, p: real, k: int)
  {
    0 <= k < |cs| && cs[k].0 == p && forall k' :: 0 <= k' < k ==> cs[k'].0 != p
  }

  /**
   * interpolate_color. A point outside [0, 1] is refused. A point that is a
   * stop gets that stop's colour unchanged. Otherwise the colour is blended
   * between the stops just below and just above the point, and the lookup
   * fails if there is no stop on one of the two sides.
   */
  function InterpolateColor(cs: ColorScale, p: real): (r: Result<Color, Error>)
    ensures r == Failure(PointOutOfRange(p)) <==> !(0.0 <= p <= 1.0)
    ensures 0.0 <= p <= 1.0 && IsStop(cs, p) ==> exists k :: FirstStopAt(cs, p, k) && r == Success(cs[k].1)
    ensures 0.0 <= p <= 1.0 && !IsStop(cs, p) ==>
      (r.Failure? <==> !(exists k :: 0 <= k < |cs| && cs[k].0 < p) || !(exists k :: 0 <= k < |cs| && p < cs[k].0))
    ensures 0.0 <= p <= 1.0 && r.Failure? ==> r == Failure(EmptySequence)
  {
    if !(0.0 <= p <= 1.0) then Failure(PointOutOfRange(p))
    else
      var scale := Positions(cs);
      if p in scale then
        var k := IndexOf(scale, p);
        assert FirstStopAt(cs, p, k);
        Success(cs[k].1)
      else
        var above, below := Above(scale, p), Below(scale, p);
        if above == [] || below == [] then
          assert (exists k :: 0 <= k < |cs| && cs[k].0 < p) ==> scale[IndexWhere(cs, p, false)] in below;
          assert (exists k :: 0 <= k < |cs| && p < cs[k].0) ==> scale[IndexWhere(cs, p, true)] in above;
          Failure(EmptySequence)
        else
          var ceil, floor := SeqMin(above), SeqMax(below);
          var t := NormaliseMinMax(p, floor, ceil).value;
          Success(Blend(cs[IndexOf(scale, floor)].1, cs[IndexOf(scale, ceil)].1, t))
  }

  /** Some stop strictly above p (when upward) or strictly below it, given that one exists. */
  function IndexWhere(cs: ColorScale, p: real, upward: bool): (k: nat)
    requires exists k :: 0 <= k < |cs| && (if upward then p < cs[k].0 else cs[k].0 < p)
    ensures k < |cs| && (if upward then p < cs[k].0 else cs[k].0 < p)
  {
    if (if upward then p < cs[0].0 else cs[0].0 < p) then 0
    else
      assert exists k :: 0 <= k < |cs[1..]| && (if upward then p < cs[1..][k].0 else cs[1..][k].0 < p) by {
        var k :| 0 <= k < |cs| && (if upward then p < cs[k].0 else cs[k].0 < p);
        assert cs[1..][k - 1] == cs[k];
      }
      1 + IndexWhere(cs[1..], p, upward)
  }

  /**
   * floor < p < ceil are adjacent positions of the scale around p: no stop
   * lies strictly between them, and lo and hi are the first stops at them.
   */
  predicate Bracket(cs: ColorScale, p: real, lo: int, hi: int)
  {
    && 0 <= lo < |cs| && 0 <= hi < |cs|
    && cs[lo].0 < p < cs[hi].0
    && (forall k :: 0 <= k < |cs| ==> cs[k].0 <= cs[lo].0 || cs[hi].0 <= cs[k].0)
    && (forall k :: 0 <= k < lo ==> cs[k].0 != cs[lo].0)
    && (forall k :: 0 <= k < hi ==> cs[k].0 != cs[hi].0)
  }

  /**
   * A point strictly between stops is coloured by blending the colours of the
   * tightest bracketing stops, at the fraction of the way from the lower to
   * the upper one, which lies strictly inside (0, 1).
   */
  lemma InterpolateColorBlends(cs: ColorScale, p: real)
    requires 0.0 <= p <= 1.0 && !IsStop(cs, p)
    requires exists k :: 0 <= k < |cs| && cs[k].0 < p
    requires exists k :: 0 <= k < |cs| && p < cs[k].0
    ensures exists lo, hi ::
      && Bracket(cs, p, lo, hi)
      && var t := (p - cs[lo].0) / (cs[hi].0 - cs[lo].0);
         0.0 < t < 1.0 && InterpolateColor(cs, p).value == Blend(cs[lo].1, cs[hi].1, t)
  {
    var scale := Positions(cs);
    assert p !in scale;
    var k :| 0 <= k < |cs| && cs[k].0 < p;
    var k' :| 0 <= k' < |cs| && p < cs[k'].0;
    assert scale[k] in Below(scale, p);
    assert scale[k'] in Above(scale, p);
    var lo, hi := BracketStops(cs, p);
    var t := (p - cs[lo].0) / (cs[hi].0 - cs[lo].0);
    BlendFraction(cs, p, lo, hi);
    assert Bracket(cs, p, lo, hi) && 0.0 < t < 1.0 && InterpolateColor(cs, p).value == Blend(cs[lo].1, cs[hi].1, t);
  }

  /** Between the bracketing stops, interpolate_color blends at the fraction normalise_min_max gives. */
  lemma BlendFraction(cs: ColorScale, p: real, lo: nat, hi: nat)
    requires 0.0 <= p <= 1.0 && p !in Positions(cs)
    requires var scale := Positions(cs);
      && Above(scale, p) != [] && Below(scale, p) != []
      && lo == IndexOf(scale, SeqMax(Below(scale, p)))
      && hi == IndexOf(scale, SeqMin(Above(scale, p)))
      && Bracket(cs, p, lo, hi)
    ensures var t := (p - cs[lo].0) / (cs[hi].0 - cs[lo].0);
      0.0 < t < 1.0 && InterpolateColor(cs, p) == Success(Blend(cs[lo].1, cs[hi].1, t))
  {
    var t := NormaliseMinMax(p, cs[lo].0, cs[hi].0).value;
    assert t != 0.0 && t != 1.0;
  }

  /** The first stops at floor and at ceil, as interpolate_color finds them, bracket p tightly. */
  lemma BracketStops(cs: ColorScale, p: real) returns (lo: nat, hi: nat)
    requires p !in Positions(cs) && Above(Positions(cs), p) != [] && Below(Positions(cs), p) != []
    ensures var scale := Positions(cs);
      && lo == IndexOf(scale, SeqMax(Below(scale, p)))
      && hi == IndexOf(scale, SeqMin(Above(scale, p)))
      && Bracket(cs, p, lo, hi)
  {
    var scale := Positions(cs);
    var above, below := Above(scale, p), Below(scale, p);
    var ceil, floor := SeqMin(above), SeqMax(below);
    assert floor < p < ceil;
    lo, hi := IndexOf(scale, floor), IndexOf(scale, ceil);
    assert cs[lo].0 == floor && cs[hi].0 == ceil;
    NothingBetween(cs, p);
  }

  /** No stop lies strictly between floor and ceil. */
  lemma NothingBetween(cs: ColorScale, p: real)
    requires p !in Positions(cs) && Above(Positions(cs), p) != [] && Below(Positions(cs), p) != []
    ensures var scale := Positions(cs);
      forall k :: 0 <= k < |cs| ==> cs[k].0 <= SeqMax(Below(scale, p)) || SeqMin(Above(scale, p)) <= cs[k].0
  {
    var scale := Positions(cs);
    forall k | 0 <= k < |cs|
      ensures cs[k].0 <= SeqMax(Below(scale, p)) || SeqMin(Above(scale, p)) <= cs[k].0
    {
      assert scale[k] == cs[k].0;
      OutsideBracket(scale, p, scale[k]);
    }
  }

  /** A position other than p lies at or below floor or at or above ceil. */
  lemma OutsideBracket(scale: seq<real>, p: real, v: real)
    requires v in scale && v != p && Above(scale, p) != [] && Below(scale, p) != []
    ensures v <= SeqMax(Below(scale, p)) || SeqMin(Above(scale, p)) <= v
  {
    if v < p {
      SeqMaxBoundsMember(Below(scale, p), v);
    } else {
      SeqMinBoundsMember(Above(scale, p), v);
    }
  }

  /**
   * A canonical colour scale, as validate_and_coerce_colorscale produces it:
   * positions strictly ascending from 0 to 1.
   */
  predicate ValidColorScale(cs: ColorScale)
  {
    && |cs| >= 2
    && cs[0].0 == 0.0 && cs[|cs| - 1].0 == 1.0
    && forall k, k' :: 0 <= k < k' < |cs| ==> cs[k].0 < cs[k'].0
  }

  /** On a canonical scale, every point of [0, 1] has a colour. */
  lemma InterpolateColorTotal(cs: ColorScale, p: real)
    requires ValidColorScale(cs) && 0.0 <= p <= 1.0
    ensures InterpolateColor(cs, p).Success?
  {
    if !IsStop(cs, p) {
      assert cs[0].0 < p < cs[|cs| - 1].0;
    }
  }

  // ---------------------------------------------------------------------------
  // compute_trace_colors

  /** go.scatter.Fillgradient(colorscale=..., start=..., stop=..., type=...). */
  datatype Gradient = Gradient(colorscale: ColorScale, start: real, stop: real, kind: string)

  /** The style of one trace: dict(fillcolor=...) or dict(fillgradient=...). */
  datatype Fill = SolidFill(fillcolor: Color) | GradientFill(fillgradient: Gradient)

  function ApplyAlpha(c: Color, alpha: real): Color
  {
    c.(alpha := Some(alpha))
  }

  /** The scale with the opacity, if any, applied to every stop's colour. */
  function WithOpacity(cs: ColorScale, opacity: Option<real>): (r: ColorScale)
    ensures |r| == |cs| && forall k :: 0 <= k < |cs| ==> r[k].0 == cs[k].0
    ensures opacity.Some? ==> forall k :: 0 <= k < |cs| ==> r[k].1.alpha == opacity
    ensures opacity.None? ==> r == cs
  {
    match opacity
    case None => cs
    case Some(a) => seq(|cs|, k requires 0 <= k < |cs| => (cs[k].0, ApplyAlpha(cs[k].1, a)))
  }

  /** The colour with the opacity, if any, applied. */
  function Painted(c: Color, opacity: Option<real>): Color
  {
    if opacity.Some? then ApplyAlpha(c, opacity.value) else c
  }

  /** _get_fill_color: the interpolated colour, with the opacity applied again when given. */
  function SolidFillAt(cs: ColorScale, opacity: Option<real>, p: real): Result<Fill, Error>
  {
    match InterpolateColor(cs, p)
    case Failure(e) => Failure(e)
    case Success(c) => Success(SolidFill(Painted(c, opacity)))
  }

  function SolidFiller(cs: ColorScale, opacity: Option<real>): real -> Result<Fill, Error>
  {
    p => SolidFillAt(cs, opacity, p)
  }

  /**
   * The solid fills of all traces: fails exactly when some position has no
   * colour, and otherwise fills each trace with the colour at its position.
   */
  function SolidFills(cs: ColorScale, opacity: Option<real>, ps: Interpolants): (r: Result<seq<seq<Fill>>, Error>)
    ensures r.Success? <==> forall i, j :: 0 <= i < |ps| && 0 <= j < |ps[i]| ==> InterpolateColor(cs, ps[i][j]).Success?
    ensures r.Success? ==> SameShape(r.value, ps)
    ensures r.Success? ==> forall i, j :: 0 <= i < |ps| && 0 <= j < |ps[i]| ==>
      r.value[i][j] == SolidFill(Painted(InterpolateColor(cs, ps[i][j]).value, opacity))
    ensures r.Failure? ==> exists i, j :: 0 <= i < |ps| && 0 <= j < |ps[i]| && InterpolateColor(cs, ps[i][j]) == Failure(r.error)
  {
    var f := SolidFiller(cs, opacity);
    var r := TryMapRows(ps, f);
    assert forall i, j :: 0 <= i < |ps| && 0 <= j < |ps[i]| ==>
      (f(ps[i][j]).Success? <==> InterpolateColor(cs, ps[i][j]).Success?);
    r
  }

  const FillGradientMode: string := "fillgradient"

  /**
   * compute_trace_colors: one fill per trace, shaped like the densities. The
   * gradient mode gives every trace the same descriptor (the opacity-adjusted
   * scale over the global x range); a solid mode colours each trace at the
   * position its strategy gives it; any other name is refused.
   */
  function ComputeTraceColors(cs: ColorScale, colormode: string, opacity: Option<real>, ctx: Context)
    : (r: Result<seq<seq<Fill>>, Error>)
    requires colormode in SolidColormodeMaps ==> StrategyDefined(SolidColormodeMaps[colormode], ctx)
    ensures colormode != FillGradientMode && colormode !in SolidColormodeMaps ==>
      r == Failure(InvalidColormode(colormode))
    ensures colormode == FillGradientMode ==>
      && r.Success?
      && SameShape(r.value, ctx.densities)
      && forall i, j :: 0 <= i < |r.value| && 0 <= j < |r.value[i]| ==>
           r.value[i][j] == GradientFill(Gradient(WithOpacity(cs, opacity), ctx.xMin, ctx.xMax, "horizontal"))
    ensures colormode in SolidColormodeMaps && r.Success? ==>
      && SameShape(r.value, ctx.densities)
      && forall i, j :: 0 <= i < |r.value| && 0 <= j < |r.value[i]| ==> r.value[i][j].SolidFill?
  {
    var scale := WithOpacity(cs, opacity);
    if colormode == FillGradientMode then
      Success(seq(|ctx.densities|, i requires 0 <= i < |ctx.densities| =>
        seq(|ctx.densities[i]|, _ => GradientFill(Gradient(scale, ctx.xMin, ctx.xMax, "horizontal")))))
    else if colormode !in SolidColormodeMaps then
      Failure(InvalidColormode(colormode))
    else
      match ColormodeInterpolants(SolidColormodeMaps[colormode], ctx)
      case Failure(e) => Failure(e)
      case Success(ps) => SolidFills(scale, opacity, ps)
  }

  /**
   * On a canonical scale and a consistent context, a recognised colormode
   * fails only when its strategy does: colour lookup never fails.
   */
  lemma ComputeTraceColorsTotal(cs: ColorScale, colormode: string, opacity: Option<real>, ctx: Context)
    requires ValidColorScale(cs) && ValidContext(ctx)
    requires colormode in SolidColormodeMaps ==> StrategyDefined(SolidColormodeMaps[colormode], ctx)
    requires colormode in SolidColormodeMaps ==> ColormodeInterpolants(SolidColormodeMaps[colormode], ctx).Success?
    requires colormode == FillGradientMode || colormode in SolidColormodeMaps
    ensures ComputeTraceColors(cs, colormode, opacity, ctx).Success?
  {
    if colormode in SolidColormodeMaps {
      var mode := SolidColormodeMaps[colormode];
      var ps := ColormodeInterpolants(mode, ctx).value;
      var scale := WithOpacity(cs, opacity);
      assert ValidColorScale(scale);
      ColormodeInterpolantsInRange(mode, ctx);
      forall i, j | 0 <= i < |ps| && 0 <= j < |ps[i]|
        ensures InterpolateColor(scale, ps[i][j]).Success?
      {
        InterpolateColorTotal(scale, ps[i][j]);
      }
      ComputeTraceColorsSolid(cs, colormode, opacity, ctx);
    }
  }

  /**
   * In a solid mode, a strategy's error passes through; otherwise the call
   * succeeds exactly when every trace's position has a colour, and each
   * trace's fill is that colour, with the opacity applied when given.
   */
  lemma ComputeTraceColorsSolid(cs: ColorScale, colormode: string, opacity: Option<real>, ctx: Context)
    requires colormode in SolidColormodeMaps && StrategyDefined(SolidColormodeMaps[colormode], ctx)
    ensures var r, ip := ComputeTraceColors(cs, colormode, opacity, ctx), ColormodeInterpolants(SolidColormodeMaps[colormode], ctx);
      && (ip.Failure? ==> r == Failure(ip.error))
      && (ip.Success? ==>
            (r.Success? <==> forall i, j :: 0 <= i < |ip.value| && 0 <= j < |ip.value[i]| ==>
                               InterpolateColor(WithOpacity(cs, opacity), ip.value[i][j]).Success?))
    ensures var r, ip := ComputeTraceColors(cs, colormode, opacity, ctx), ColormodeInterpolants(SolidColormodeMaps[colormode], ctx);
      ip.Success? && r.Success? ==>
        forall i, j :: 0 <= i < |ip.value| && 0 <= j < |ip.value[i]| ==>
          r.value[i][j] == SolidFill(Painted(InterpolateColor(WithOpacity(cs, opacity), ip.value[i][j]).value, opacity))
  {
    assert colormode != FillGradientMode;
    var ip := ColormodeInterpolants(SolidColormodeMaps[colormode], ctx);
    if ip.Success? {
      assert ComputeTraceColors(cs, colormode, opacity, ctx) == SolidFills(WithOpacity(cs, opacity), opacity, ip.value);
    }
  }

  /** With an opacity, every emitted colour carries it: each solid fill and every stop of each gradient. */
  lemma ComputeTraceColorsOpacity(cs: ColorScale, colormode: string, alpha: real, ctx: Context)
    requires colormode in SolidColormodeMaps ==> StrategyDefined(SolidColormodeMaps[colormode], ctx)
    requires ComputeTraceColors(cs, colormode, Some(alpha), ctx).Success?
    ensures var fills := ComputeTraceColors(cs, colormode, Some(alpha), ctx).value;
      forall i, j :: 0 <= i < |fills| && 0 <= j < |fills[i]| ==>
        match fills[i][j]
        case SolidFill(c) => c.alpha == Some(alpha)
        case GradientFill(g) => forall k :: 0 <= k < |g.colorscale| ==> g.colorscale[k].1.alpha == Some(alpha)
  {
    var fills: seq<seq<Fill>> := ComputeTraceColors(cs, colormode, Some(alpha), ctx).value;
    if colormode != FillGradientMode {
      var ps := ColormodeInterpolants(SolidColormodeMaps[colormode], ctx).value;
      var scale := WithOpacity(cs, Some(alpha));
      assert fills == SolidFills(scale, Some(alpha), ps).value;
    }
  }

  /** The trace of the example below: uniform weight over x = 0, 1, 2, so its weighted mean is 1. */
  lemma ExampleTraceMean(t: Trace)
    requires t == [(0.0, 1.0), (1.0, 1.0), (2.0, 1.0)]
    ensures Weighted(t) && WeightedMean(t) == 1.0
  {
    var xs, ys := Xs(t), Ys(t);
    assert ys == [1.0, 1.0, 1.0];
    assert ys[1..] == [1.0, 1.0] && ys[1..][1..] == [1.0] && ys[1..][1..][1..] == [];
    assert Sum(ys[1..][1..]) == 1.0;
    assert Sum(ys[1..]) == 2.0;
    assert Sum(ys) == 3.0;
    assert xs == [0.0, 1.0, 2.0];
    assert xs[1..] == [1.0, 2.0] && xs[1..][1..] == [2.0] && xs[1..][1..][1..] == [];
    var prods := Mul(xs, ys);
    assert prods == [0.0, 1.0, 2.0];
    assert prods[1..] == [1.0, 2.0] && prods[1..][1..] == [2.0] && prods[1..][1..][1..] == [];
    assert Sum(prods[1..][1..]) == 2.0;
    assert Sum(prods[1..]) == 3.0;
    assert Sum(prods) == 3.0;
  }

  /** Halfway along a black-to-white scale lies the mid grey. */
  lemma ExampleColor(cs: ColorScale)
    requires cs == [(0.0, Rgb(0.0, 0.0, 0.0, None)), (1.0, Rgb(255.0, 255.0, 255.0, None))]
    ensures InterpolateColor(cs, 0.5) == Success(Rgb(127.5, 127.5, 127.5, None))
  {
    var scale := Positions(cs);
    assert scale == [0.0, 1.0];
    assert scale[1..] == [1.0] && scale[1..][1..] == [];
    assert Above(scale[1..], 0.5) == [1.0] + Above([], 0.5);
    assert Above(scale, 0.5) == [1.0];
    assert Below(scale[1..], 0.5) == [] + Below([], 0.5);
    assert Below(scale, 0.5) == [0.0];
    assert IndexOf(scale, 0.0) == 0;
    assert IndexOf(scale, 1.0) == 1;
    assert NormaliseMinMax(0.5, 0.0, 1.0) == Success(0.5);
  }

  /** The example densities' context: one row, one trace, x range [0, 2]. */
  lemma ExampleContext(d: Densities)
    requires d == [[[(0.0, 1.0), (1.0, 1.0), (2.0, 1.0)]]]
    ensures FromDensities(d) == Success(Context(d, 1, 1, 0.0, 2.0))
  {
    assert TotalLength(d) == 1 by {
      assert d[..0] == [];
    }
    FromDensitiesFailure(d);
    FromDensitiesExtrema(d);
    var ctx := FromDensities(d).value;
    assert ctx.xMin <= d[0][0][0].0 && d[0][0][2].0 <= ctx.xMax;
  }

  /**
   * One row with one trace of uniform weight over x = 0, 1, 2, coloured by
   * mean-minmax on a black-to-white scale: the weighted mean 1 sits halfway
   * along the x range [0, 2], so the trace is filled with the mid grey.
   */
  lemma MeanMinmaxExample(d: Densities, cs: ColorScale)
    requires d == [[[(0.0, 1.0), (1.0, 1.0), (2.0, 1.0)]]]
    requires cs == [(0.0, Rgb(0.0, 0.0, 0.0, None)), (1.0, Rgb(255.0, 255.0, 255.0, None))]
    ensures FromDensities(d).Success? && NonZeroWeights(d)
    ensures ComputeTraceColors(cs, "mean-minmax", None, FromDensities(d).value) ==
      Success([[SolidFill(Rgb(127.5, 127.5, 127.5, None))]])
  {
    ExamplePositions(d);
    var ctx := FromDensities(d).value;
    var ps := [[0.5]];
    assert SolidColormodeMaps["mean-minmax"] == MeanMinmaxMode;
    assert ColormodeInterpolants(MeanMinmaxMode, ctx) == Success(ps);
    ExampleColor(cs);
    assert WithOpacity(cs, None) == cs;
    ComputeTraceColorsSolid(cs, "mean-minmax", None, ctx);
    var fills := ComputeTraceColors(cs, "mean-minmax", None, ctx).value;
    var grey := SolidFill(Rgb(127.5, 127.5, 127.5, None));
    assert |fills| == 1 && fills[0] == [grey];
    assert fills == [[grey]];
  }

  /** The example's only trace is placed halfway along the colour scale. */
  lemma ExamplePositions(d: Densities)
    requires d == [[[(0.0, 1.0), (1.0, 1.0), (2.0, 1.0)]]]
    ensures FromDensities(d).Success? && NonZeroWeights(d)
    ensures MeanMinmaxPositions(FromDensities(d).value) == Success([[0.5]])
  {
    ExampleTraceMean(d[0][0]);
    ExampleContext(d);
    var ctx := FromDensities(d).value;
    assert InRange(WeightedMean(d[0][0]), ctx.xMin, ctx.xMax);
    MeanMinmaxMeaning(ctx);
    MeanMinmaxAt(ctx, 0, 0);
    var ps := MeanMinmaxPositions(ctx).value;
    assert NormaliseMinMax(1.0, 0.0, 2.0) == Success(0.5);
    assert |ps| == 1 && ps[0] == [0.5];
    assert ps == [[0.5]];
  }
}
