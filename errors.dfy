/** The exceptions the modelled code raises, one constructor per distinct failure. */
module Errors {

  datatype Error =
    /** get_xy_extrema: an array-like that does not have exactly two components. */
    | NotTwoDimensional(dims: nat)
    /** get_xy_extrema: an array-like whose x or y component is empty. */
    | EmptyArray
    /** get_xy_extrema: nothing was accumulated (no array-likes at all). */
    | EmptyArraySequence
    /** normalise_min_max: the upper bound is not above the lower bound. */
    | InvertedBounds(min_: real, max_: real)
    /** normalise_min_max: the value lies outside the bounds. */
    | OutOfBounds(val: real, min_: real, max_: real)
    /** Python's min()/max() applied to an empty iterable. */
    | EmptySequence
    /** interpolate_color: the interpolation point is outside [0, 1]. */
    | PointOutOfRange(p: real)
    /** compute_trace_colors: a colormode that is neither "fillgradient" nor a solid mode. */
    | InvalidColormode(colormode: string)
    /** LazyMapping.__getitem__: the key is not in the loaded mapping. */
    | KeyError
}
