# ridgeplot colour selection, modelled in Dafny

This project models how ridgeplot decides the fill of every density trace of
a ridgeline plot, and proves what that code promises.

- **Context.** `InterpolationContext.from_densities` derives the context from the densities: the number of rows, the number of traces, and the global x range.
- **Strategies.** Five "solid colormode" strategies place every trace at a position in [0, 1]:
  - row index;
  - trace index;
  - trace index within its row;
  - the weighted mean of the trace, normalised against the global x range;
  - the weighted mean of the trace, normalised against the range of all means.
- **Colour lookup.** `interpolate_color` looks up the colour at a position of a colour scale.
- **Dispatch.** `compute_trace_colors` produces one fill per trace. It gives either a shared fill gradient or the solid colour at the trace's position.
- **Helpers.** The model also covers the helpers in `_utils.py`:
  - `get_xy_extrema`;
  - `normalise_min_max`;
  - the `LazyMapping` class, which loads its contents once, on first access.

Files:

- `wrappers.dfy`: `Option` and `Result`.
- `errors.dfy`: one `Error` constructor per exception the code raises.
- `seqs.dfy`: Python's `sum`, `min` and `max` over sequences, flattening, and comprehensions that stop at the first raised exception (`TryMap`, `TryMapRows`).
- `utils.dfy`: the code of `src/ridgeplot/_utils.py`.
- `interpolation.dfy`: the code of `src/ridgeplot/_color/interpolation.py`.

Form of each part:

- **Loops become methods.** Code that works with loops is modelled as methods: `get_xy_extrema` and the trace-index, mean-minmax and mean-means strategies. Each method is proved equal to a specification function, and the properties are proved about that function.
- **The cache is a class.** `LazyMapping` keeps its cached mapping in a field. A ghost counter records how often the loader has run.
- **Expressions stay functions.** Code written as expressions or comprehensions is modelled as functions.
- **Exceptions become results.** Every raised exception is a `Failure` of a `Result`. A comprehension fails with the error of the first failing element, in row-major order.

## Model

| member | source | states |
|---|---|---|
| Utils.ShapeError | src/ridgeplot/_utils.py:47-50 | an array-like raises no shape error exactly when it has two components and neither is empty |
| Utils.GetXyExtrema | src/ridgeplot/_utils.py:31-55 | the loop that extends x and y array by array returns or raises exactly what XyExtrema says |
| Utils.XyExtremaFailure | src/ridgeplot/_utils.py:46-54 | get_xy_extrema fails iff there are no arrays or some array is malformed. The first malformed array decides the error: not 2D, or an empty component. No arrays gives the empty-sequence error |
| Utils.XyExtremaBounds | src/ridgeplot/_utils.py:44-55 | on success, x_min and x_max bound every x of every array and both occur among them; likewise y_min and y_max for y |
| Utils.ColumnMember | src/ridgeplot/_utils.py:51-52 | a value is in the accumulated x (or y) list iff it is a component value of some array |
| Seqs.SeqMin | src/ridgeplot/_utils.py:55 | min() of a non-empty list is one of its elements and bounds every element from below |
| Seqs.SeqMax | src/ridgeplot/_utils.py:55 | max() of a non-empty list is one of its elements and bounds every element from above |
| Utils.NormaliseMinMax | src/ridgeplot/_utils.py:58-65 | fails iff max_ <= min_ (inverted bounds) or val is outside [min_, max_] (out of bounds). Otherwise the result r is in [0, 1], min_ + r*(max_-min_) == val, r == 0 iff val == min_, and r == 1 iff val == max_ |
| Utils.NormaliseMonotone | src/ridgeplot/_utils.py:65 | normalising against the same bounds keeps strict order in both directions |
| Utils.LazyMapping.constructor | src/ridgeplot/_utils.py:75-77 | the loader is stored, nothing is cached, and the loader has not run |
| Utils.LazyMapping.Mapping | src/ridgeplot/_utils.py:79-83 | returns the loader's mapping and caches it. The loader runs only if nothing was cached; a cached mapping is returned unchanged. The loader runs at most once over the object's life (Valid) |
| Utils.LazyMapping.GetItem | src/ridgeplot/_utils.py:85-86 | the loaded mapping's value for the key, or KeyError when the key is absent |
| Utils.LazyMapping.Iter | src/ridgeplot/_utils.py:88-89 | the keys of the loaded mapping |
| Utils.LazyMapping.Len | src/ridgeplot/_utils.py:91-92 | the number of entries of the loaded mapping |
| Interpolation.FromDensities | src/ridgeplot/_color/interpolation.py:51-60 | the context keeps the densities; n_rows is the number of rows and n_traces the number of traces over all rows |
| Interpolation.FromDensitiesFailure | src/ridgeplot/_color/interpolation.py:53 | from_densities fails iff there is no trace or some trace has no points. An empty trace gives the empty-array error; no traces gives the empty-sequence error |
| Interpolation.FromDensitiesExtrema | src/ridgeplot/_color/interpolation.py:53-59 | on success the context is consistent with the densities, x_min and x_max bound the x of every point, and both occur as some point's x |
| Interpolation.Mul | src/ridgeplot/_color/interpolation.py:67-69 | element-wise products, as many as the shorter tuple has elements |
| Interpolation.WeightedMeanWithin | src/ridgeplot/_color/interpolation.py:105 | with non-negative weights of positive total, sum(x*y)/sum(y) lies within any bounds of the trace's x values |
| Interpolation.IndexPosition | src/ridgeplot/_color/interpolation.py:74 | ((n-1)-k)/(n-1) is 1 for the first item and 0 for the last, and lies in [0, 1] for every item |
| Interpolation.IndexPositionDecreasing | src/ridgeplot/_color/interpolation.py:85 | a later item gets a strictly smaller position |
| Interpolation.RowIndex | src/ridgeplot/_color/interpolation.py:72-76 | one list per row, as long as the row, and every entry of row i is at the position of row i among n_rows |
| Interpolation.RowIndexOrder | src/ridgeplot/_color/interpolation.py:72-76 | the row-index positions lie in [0, 1]; the first row is at 1, the last at 0, and every trace of an earlier row lies strictly above every trace of a later row |
| Interpolation.TraceIndex | src/ridgeplot/_color/interpolation.py:79-88 | the nested loop with its running counter returns exactly TraceIndexPositions |
| Interpolation.TraceIndexNumbering | src/ridgeplot/_color/interpolation.py:81-86 | trace j of row i is numbered by the count of traces before its row plus j, below n_traces, and is placed at that number's position |
| Interpolation.TraceIndexFlatten | src/ridgeplot/_color/interpolation.py:79-88 | read row by row, the trace-index positions are the countdown over all n_traces traces |
| Interpolation.TraceIndexOrder | src/ridgeplot/_color/interpolation.py:79-88 | in row-major order there is one position per trace. They lie in [0, 1], run from 1 for the first trace to 0 for the last, and strictly decrease |
| Interpolation.TraceIndexRowWise | src/ridgeplot/_color/interpolation.py:91-95 | one list per row, as long as the row, with trace j of a row of length m at position ((m-1)-j)/(m-1) |
| Interpolation.TraceIndexRowWiseOrder | src/ridgeplot/_color/interpolation.py:91-95 | within every row, the positions lie in [0, 1], start at 1, end at 0 and strictly decrease |
| Interpolation.MeanMinmax | src/ridgeplot/_color/interpolation.py:98-108 | the nested loop returns or raises exactly what MeanMinmaxPositions says |
| Interpolation.MeanMinmaxMeaning | src/ridgeplot/_color/interpolation.py:98-108 | mean-minmax succeeds iff x_min < x_max and every trace's weighted mean lies in [x_min, x_max] |
| Interpolation.MeanMinmaxValues | src/ridgeplot/_color/interpolation.py:98-108 | on success, the positions are shaped like the densities. Each lies in [0, 1] and is the fraction of the way from x_min to x_max at which its trace's weighted mean lies |
| Interpolation.MeanMinmaxAt | src/ridgeplot/_color/interpolation.py:102-106 | on success, the position of trace (i, j) is normalise_min_max of its weighted mean against the global x range |
| Interpolation.MeanMinmaxSucceeds | src/ridgeplot/_color/interpolation.py:98-108 | for a context built by from_densities, with non-negative weights of positive total per trace and a non-empty x range, mean-minmax never fails |
| Interpolation.LeastMean | src/ridgeplot/_color/interpolation.py:119 | the min of the row minima is no greater than any mean and is one of them |
| Interpolation.GreatestMean | src/ridgeplot/_color/interpolation.py:120 | the max of the row maxima is no less than any mean and is one of them |
| Interpolation.MeanMeans | src/ridgeplot/_color/interpolation.py:111-123 | the nested loop collecting the means, followed by normalisation, returns or raises exactly what MeanMeansPositions says |
| Interpolation.NormaliseAgainstOwnRangeFailure | src/ridgeplot/_color/interpolation.py:119-123 | normalising the means against their own range fails iff there are no rows, some row is empty, or all means are equal |
| Interpolation.OwnRangeAt | src/ridgeplot/_color/interpolation.py:121-123 | when no row is empty and the means are not all equal, normalisation succeeds and entry (i, j) is normalise_min_max of mean (i, j) against the least and the greatest mean |
| Interpolation.NormaliseAgainstOwnRangeBounds | src/ridgeplot/_color/interpolation.py:119-123 | when no row is empty and the means are not all equal, normalisation succeeds. The result is shaped like the means and lies in [0, 1]; a least mean maps to 0 and a greatest mean to 1 |
| Interpolation.NormaliseAgainstOwnRangeOrder | src/ridgeplot/_color/interpolation.py:121-123 | when no row is empty and the means are not all equal, normalisation succeeds, and one mean is smaller than another iff its position is smaller |
| Interpolation.ColormodeInterpolants | src/ridgeplot/_color/interpolation.py:126-132 | the strategy SOLID_COLORMODE_MAPS selects gives positions shaped like the densities; only the two mean strategies can fail |
| Interpolation.ColormodeInterpolantsInRange | src/ridgeplot/_color/interpolation.py:126-132 | for a consistent context, every strategy places every trace within [0, 1] |
| Interpolation.Positions | src/ridgeplot/_color/interpolation.py:141 | the list of stop positions, in order, and exactly the positions of the stops |
| Interpolation.Above | src/ridgeplot/_color/interpolation.py:146 | exactly the positions strictly above p |
| Interpolation.Below | src/ridgeplot/_color/interpolation.py:147 | exactly the positions strictly below p |
| Interpolation.IndexOf | src/ridgeplot/_color/interpolation.py:144 | list.index returns the first index holding the value |
| Interpolation.InterpolateColor | src/ridgeplot/_color/interpolation.py:135-157 | p outside [0, 1] is refused. A stop position gets the colour of the first stop there, unchanged. Any other p fails iff there is no stop below it or none above it, and that failure is the empty-sequence error of min()/max() |
| Interpolation.InterpolateColorBlends | src/ridgeplot/_color/interpolation.py:145-157 | when p lies strictly between stops, the colour blends the first stops at floor and at ceil. No stop lies strictly between them, and the fraction lies strictly in (0, 1) |
| Interpolation.BracketStops | src/ridgeplot/_color/interpolation.py:146-153 | the stops that floor and ceil select are the first stops at those positions, and they bracket p tightly |
| Interpolation.BlendFraction | src/ridgeplot/_color/interpolation.py:148-156 | the fraction normalise_min_max gives for p between floor and ceil lies strictly in (0, 1), and the colour is the blend at that fraction |
| Interpolation.BlendBetween | src/ridgeplot/_color/interpolation.py:151-156 | each channel of a blend at a fraction in [0, 1] lies between the channels of its two colours |
| Interpolation.InterpolateColorTotal | src/ridgeplot/_color/interpolation.py:135-157 | on a canonical scale (at least two stops, from 0 to 1, increasing), every p in [0, 1] has a colour |
| Interpolation.WithOpacity | src/ridgeplot/_color/interpolation.py:171-173 | with an opacity, every stop keeps its position and its colour gets that alpha; without one, the scale is unchanged |
| Interpolation.SolidFills | src/ridgeplot/_color/interpolation.py:191-209 | the solid fills fail iff some position has no colour, with that lookup's error; otherwise there is one fill per position, the colour at it with the opacity applied when given |
| Interpolation.ComputeTraceColors | src/ridgeplot/_color/interpolation.py:160-209 | "fillgradient" gives every trace the same gradient: the opacity-adjusted scale over [x_min, x_max], shaped like the densities. An unknown colormode is refused. A solid mode gives one solid fill per trace, shaped like the densities |
| Interpolation.ComputeTraceColorsSolid | src/ridgeplot/_color/interpolation.py:191-209 | in a solid mode, the strategy's error passes through. Otherwise the call succeeds iff every position has a colour in the opacity-adjusted scale, and each fill is that colour, with the opacity applied again when given |
| Interpolation.ComputeTraceColorsTotal | src/ridgeplot/_color/interpolation.py:166-209 | with a canonical scale, a consistent context and a strategy that succeeds, a recognised colormode always yields fills |
| Interpolation.ComputeTraceColorsOpacity | src/ridgeplot/_color/interpolation.py:171-200 | with an opacity, every emitted colour carries it: every solid fill and every stop of every gradient |
| Interpolation.ExampleTraceMean | src/ridgeplot/_color/interpolation.py:117 | a trace with equal weights at x = 0, 1, 2 has weighted mean 1 |
| Interpolation.ExampleContext | src/ridgeplot/_color/interpolation.py:51-60 | that single trace gives a context of 1 row, 1 trace and x range [0, 2] |
| Interpolation.ExamplePositions | src/ridgeplot/_color/interpolation.py:98-108 | mean-minmax places that trace at 0.5 |
| Interpolation.ExampleColor | src/ridgeplot/_color/interpolation.py:135-157 | halfway along a black-to-white scale lies rgb(127.5, 127.5, 127.5) |
| Interpolation.MeanMinmaxExample | src/ridgeplot/_color/interpolation.py:160-209 | the whole pipeline on the example, in mode "mean-minmax", fills the trace with that mid grey |

## Left out

- **Plotly calls.**
  - `px.colors.find_intermediate_color` is modelled as `Blend`: channel-wise linear interpolation whose result has no alpha channel.
  - `go.scatter.Fillgradient` is a plain record (`Gradient`).
- **`validate_and_coerce_colorscale`.** It is not part of this model. The colour scale is taken as given, already a list of (position, colour) stops.
- **Colour helpers.**
  - `to_rgb` and `round_color` are not part of this model. Colours are already RGB records, and rounding to 12 digits is presentation only.
  - `apply_alpha` sets the alpha channel (`ApplyAlpha`).
- **Colour strings.** Colours are records, and string formatting is not modelled.
- **Floating point.** Python floats are modelled as exact reals, so IEEE rounding and the `float()` conversions are not modelled.
- **Divisions by zero.** The `n - 1` and `sum(y)` divisions raise `ZeroDivisionError` in Python. Here they are preconditions (`StrategyDefined`, `NonZeroWeights`) instead of errors. The precondition is exact for the three index strategies and for mean-means, which computes every mean before it normalises any: there, a division is excluded only when it would take place.
- MeanMinmax: requires every trace to have non-zero weight (`NonZeroWeights`), and so do `MeanMinmaxPositions` and `StrategyDefined` for mean-minmax. The source normalises trace by trace (src/ridgeplot/_color/interpolation.py:100-106), so once a mean is out of range it raises `OutOfBounds` and never divides by a later trace's `sum(y)`. The model therefore leaves out the inputs where a zero-weight trace follows the first out-of-range trace. For example, densities `[[[(5.0, 1.0)], [(0.0, 0.0)]]]` with x range [0, 1] raise `OutOfBounds(5.0, 0.0, 1.0)` in the source but are outside the model's precondition.
- **Empty traces in the mean strategies.** For an empty trace, `x, y = zip(*trace)` (src/ridgeplot/_color/interpolation.py:103 and 116) raises a `ValueError` before any division. The model does not have that error: `NonZeroWeights` excludes an empty trace, since its `sum(y)` is 0. A context built by `FromDensities` never holds an empty trace (`FromDensitiesFailure`).
- **Generic element types.** `get_xy_extrema` works on any `_ComparableT`; the model uses reals. The `_Comparable` protocol and the `Protocol` import shim are typing plumbing.
- **Laziness.**
  - The generators that `compute_trace_colors` returns are modelled as eager nested sequences.
  - Because of that, a failure of a colour lookup is reported by the call itself rather than when the generator is consumed.
- **LazyMapping.**
  - `__str__` and `__repr__` are formatting only.
  - `Iter` returns the set of keys, so iteration order is not modelled.
  - The loader is a pure function value. A loader with side effects, or one that raises, is not modelled.
- **FromDensities: what it calls.** `from_densities` calls `get_xy_extrema` with the keyword `densities=`, but that function's parameter is named `arrays`. It also passes rows of traces where (xs, ys) pairs are expected. The model makes the evidently intended call: one [xs, ys] array-like per trace. So x_min and x_max are the extrema of the x values of all points. The call as written is not modelled.
- **Trace-index counter.** `TraceIndex` does not state the final value of the counter (`ith_trace == n_traces`). `TraceIndexFlatten` states the same fact about the positions.
