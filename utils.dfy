/**
 * Numeric helpers of ridgeplot (src/ridgeplot/_utils.py): global x-y extrema
 * of a collection of 2D array-likes, min-max normalisation, and a mapping
 * whose contents are loaded on first access.
 */
module Utils {
  import opened Wrappers
  import opened Errors
  import opened Seqs

  // ---------------------------------------------------------------------------
  // get_xy_extrema

  /** The tuple (x_min, x_max, y_min, y_max). */
  datatype Extrema = Extrema(xMin: real, xMax: real, yMin: real, yMax: real)

  /** An array-like: a sequence of components, expected to be exactly [xs, ys]. */
  type ArrayLike = seq<seq<real>>

  /** Exactly two components, neither of them empty. */
  predicate WellShaped(a: ArrayLike)
  {
    |a| == 2 && |a[0]| > 0 && |a[1]| > 0
  }

  /** The error the two shape checks raise for one array-like, if any. */
  function ShapeError(a: ArrayLike): (e: Option<Error>)
    ensures e.None? <==> WellShaped(a)
  {
    if |a| != 2 then Some(NotTwoDimensional(|a|))
    else if |a[0]| == 0 || |a[1]| == 0 then Some(EmptyArray)
    else None
  }

  /** The shape error of the first malformed array-like, scanning in order. */
  function FirstShapeError(arrays: seq<ArrayLike>): Option<Error>
  {
    if arrays == [] then None
    else if ShapeError(arrays[0]).Some? then ShapeError(arrays[0])
    else FirstShapeError(arrays[1..])
  }

  /** Component c of every array-like, concatenated in order (what the loop extends x or y with). */
  function Column(arrays: seq<ArrayLike>, c: nat): seq<real>
  {
    if arrays == [] then []
    else
      var last := arrays[|arrays| - 1];
      Column(arrays[..|arrays| - 1], c) + (if c < |last| then last[c] else [])
  }

  /** What get_xy_extrema returns or raises for the given array-likes. */
  function XyExtrema(arrays: seq<ArrayLike>): Result<Extrema, Error>
  {
    match FirstShapeError(arrays)
    case Some(e) => Failure(e)
    case None =>
      var x, y := Column(arrays, 0), Column(arrays, 1);
      if |x| == 0 || |y| == 0 then Failure(EmptyArraySequence)
      else Success(Extrema(SeqMin(x), SeqMax(x), SeqMin(y), SeqMax(y)))
  }

  /** get_xy_extrema: accumulates every x and every y, checking shapes on the way. */
  method GetXyExtrema(arrays: seq<ArrayLike>) returns (r: Result<Extrema, Error>)
    ensures r == XyExtrema(arrays)
  {
    var x: seq<real> := [];
    var y: seq<real> := [];
    for i := 0 to |arrays|
      invariant forall j :: 0 <= j < i ==> WellShaped(arrays[j])
      invariant x == Column(arrays[..i], 0) && y == Column(arrays[..i], 1)
    {
      var a := arrays[i];
      if |a| != 2 {
        FirstShapeErrorAt(arrays, i);
        return Failure(NotTwoDimensional(|a|));
      }
      if |a[0]| == 0 || |a[1]| == 0 {
        FirstShapeErrorAt(arrays, i);
        return Failure(EmptyArray);
      }
      assert arrays[..i + 1][..i] == arrays[..i];
      x := x + a[0];
      y := y + a[1];
    }
    assert arrays[..|arrays|] == arrays;
    FirstShapeErrorNone(arrays);
    if |x| == 0 || |y| == 0 {
      return Failure(EmptyArraySequence);
    }
    return Success(Extrema(SeqMin(x), SeqMax(x), SeqMin(y), SeqMax(y)));
  }

  lemma {:induction false} FirstShapeErrorAt(arrays: seq<ArrayLike>, i: nat)
    requires i < |arrays| && !WellShaped(arrays[i])
    requires forall j :: 0 <= j < i ==> WellShaped(arrays[j])
    ensures FirstShapeError(arrays) == ShapeError(arrays[i])
  {
    if i > 0 {
      FirstShapeErrorAt(arrays[1..], i - 1);
    }
  }

  lemma {:induction false} FirstShapeErrorNone(arrays: seq<ArrayLike>)
    requires forall j :: 0 <= j < |arrays| ==> WellShaped(arrays[j])
    ensures FirstShapeError(arrays) == None
  {
    if arrays != [] {
      FirstShapeErrorNone(arrays[1..]);
    }
  }

  /** x is accumulated exactly when it is an element of component c of some array-like. */
  lemma {:induction false} ColumnMember(arrays: seq<ArrayLike>, c: nat, x: real)
    ensures x in Column(arrays, c) <==>
      exists i, k :: 0 <= i < |arrays| && c < |arrays[i]| && 0 <= k < |arrays[i][c]| && arrays[i][c][k] == x
  {
    if arrays != [] {
      var n := |arrays| - 1;
      var init := arrays[..n];
      ColumnMember(init, c, x);
      if x in Column(arrays, c) {
        if !(x in Column(init, c)) {
          var k :| 0 <= k < |arrays[n][c]| && arrays[n][c][k] == x;
        } else {
          var i, k :| 0 <= i < |init| && c < |init[i]| && 0 <= k < |init[i][c]| && init[i][c][k] == x;
          assert arrays[i] == init[i];
        }
      }
      if exists i, k :: 0 <= i < |arrays| && c < |arrays[i]| && 0 <= k < |arrays[i][c]| && arrays[i][c][k] == x {
        var i, k :| 0 <= i < |arrays| && c < |arrays[i]| && 0 <= k < |arrays[i][c]| && arrays[i][c][k] == x;
        if i < n {
          assert init[i] == arrays[i];
        } else {
          assert Column(arrays, c) == Column(init, c) + arrays[n][c];
        }
      }
    }
  }

  /**
   * get_xy_extrema fails exactly when there are no array-likes or one of them
   * is malformed; the first malformed one decides the error.
   */
  lemma XyExtremaFailure(arrays: seq<ArrayLike>)
    ensures XyExtrema(arrays).Failure? <==>
      arrays == [] || exists i :: 0 <= i < |arrays| && !WellShaped(arrays[i])
    ensures forall i :: 0 <= i < |arrays| && !WellShaped(arrays[i]) && (forall j :: 0 <= j < i ==> WellShaped(arrays[j])) ==>
      XyExtrema(arrays) == Failure(if |arrays[i]| != 2 then NotTwoDimensional(|arrays[i]|) else EmptyArray)
    ensures arrays == [] ==> XyExtrema(arrays) == Failure(EmptyArraySequence)
  {
    forall i | 0 <= i < |arrays| && !WellShaped(arrays[i]) && (forall j :: 0 <= j < i ==> WellShaped(arrays[j]))
      ensures FirstShapeError(arrays) == ShapeError(arrays[i])
    {
      FirstShapeErrorAt(arrays, i);
    }
    if arrays != [] && forall i :: 0 <= i < |arrays| ==> WellShaped(arrays[i]) {
      FirstShapeErrorNone(arrays);
      ColumnMember(arrays, 0, arrays[0][0][0]);
      ColumnMember(arrays, 1, arrays[0][1][0]);
    } else if arrays != [] {
      var i :| 0 <= i < |arrays| && !WellShaped(arrays[i]);
      var first := FirstMalformedExists(arrays, i);
      FirstShapeErrorAt(arrays, first);
    }
  }

  /** The index of the first malformed array-like, given that one exists at or before i. */
  lemma {:induction false} FirstMalformedExists(arrays: seq<ArrayLike>, i: nat)
    returns (first: nat)
    requires i < |arrays| && !WellShaped(arrays[i])
    ensures first <= i && !WellShaped(arrays[first])
    ensures forall j :: 0 <= j < first ==> WellShaped(arrays[j])
  {
    if exists j :: 0 <= j < i && !WellShaped(arrays[j]) {
      var j :| 0 <= j < i && !WellShaped(arrays[j]);
      first := FirstMalformedExists(arrays, j);
    } else {
      first := i;
    }
  }

  /**
   * On success, x_min and x_max are values of some array-like's x component
   * and bound every x; likewise y_min and y_max for y.
   */
  lemma XyExtremaBounds(arrays: seq<ArrayLike>)
    requires XyExtrema(arrays).Success?
    // implied by success (XyExtremaFailure); stated so that the bounds below are well-formed
    requires forall i :: 0 <= i < |arrays| ==> |arrays[i]| == 2
    ensures var e := XyExtrema(arrays).value;
      && (forall i, k :: 0 <= i < |arrays| && 0 <= k < |arrays[i][0]| ==> e.xMin <= arrays[i][0][k] <= e.xMax)
      && (forall i, k :: 0 <= i < |arrays| && 0 <= k < |arrays[i][1]| ==> e.yMin <= arrays[i][1][k] <= e.yMax)
    ensures var e := XyExtrema(arrays).value;
      && (exists i, k :: 0 <= i < |arrays| && 0 <= k < |arrays[i][0]| && arrays[i][0][k] == e.xMin)
      && (exists i, k :: 0 <= i < |arrays| && 0 <= k < |arrays[i][0]| && arrays[i][0][k] == e.xMax)
      && (exists i, k :: 0 <= i < |arrays| && 0 <= k < |arrays[i][1]| && arrays[i][1][k] == e.yMin)
      && (exists i, k :: 0 <= i < |arrays| && 0 <= k < |arrays[i][1]| && arrays[i][1][k] == e.yMax)
  {
    XyExtremaFailure(arrays);
    var e := XyExtrema(arrays).value;
    var x, y := Column(arrays, 0), Column(arrays, 1);
    forall i, k | 0 <= i < |arrays| && 0 <= k < |arrays[i][0]|
      ensures e.xMin <= arrays[i][0][k] <= e.xMax
    {
      ColumnMember(arrays, 0, arrays[i][0][k]);
    }
    forall i, k | 0 <= i < |arrays| && 0 <= k < |arrays[i][1]|
      ensures e.yMin <= arrays[i][1][k] <= e.yMax
    {
      ColumnMember(arrays, 1, arrays[i][1][k]);
    }
    ColumnMember(arrays, 0, e.xMin);
    ColumnMember(arrays, 0, e.xMax);
    ColumnMember(arrays, 1, e.yMin);
    ColumnMember(arrays, 1, e.yMax);
  }

  // ---------------------------------------------------------------------------
  // normalise_min_max

  /** p is the fraction of the way from lo to hi at which v lies. */
  predicate FractionOf(p: real, v: real, lo: real, hi: real)
  {
    0.0 <= p <= 1.0 && lo + p * (hi - lo) == v
  }

  /**
   * normalise_min_max: the position of val within [min_, max_], as a fraction.
   * Fails when the bounds are inverted or empty (checked first) and when val
   * lies outside them.
   */
  function NormaliseMinMax(val: real, min_: real, max_: real): (r: Result<real, Error>)
    ensures r.Failure? <==> max_ <= min_ || val < min_ || max_ < val
    ensures max_ <= min_ ==> r == Failure(InvertedBounds(min_, max_))
    ensures min_ < max_ && !(min_ <= val <= max_) ==> r == Failure(OutOfBounds(val, min_, max_))
    ensures r.Success? ==> FractionOf(r.value, val, min_, max_)
    ensures r.Success? ==> (r.value == 0.0 <==> val == min_)
    ensures r.Success? ==> (r.value == 1.0 <==> val == max_)
  {
    if max_ <= min_ then Failure(InvertedBounds(min_, max_))
    else if !(min_ <= val <= max_) then Failure(OutOfBounds(val, min_, max_))
    else
      FractionBounds(val - min_, max_ - min_);
      Success((val - min_) / (max_ - min_))
  }

  lemma MulPositive(a: real, b: real)
    requires a > 0.0 && b > 0.0
    ensures a * b > 0.0
  {}

  lemma MulNonNegative(a: real, b: real)
    requires a >= 0.0 && b >= 0.0
    ensures a * b >= 0.0
  {
    if a > 0.0 && b > 0.0 { MulPositive(a, b); }
  }

  /** x / d is a fraction in [0, 1] that scales back to x. */
  lemma FractionBounds(x: real, d: real)
    requires 0.0 <= x <= d && d > 0.0
    ensures 0.0 <= x / d <= 1.0 && (x / d) * d == x
    ensures x / d == 0.0 <==> x == 0.0
    ensures x / d == 1.0 <==> x == d
  {
    var r := x / d;
    assert r * d == x;
    assert (1.0 - r) * d == d - x;
    if r < 0.0 { MulPositive(-r, d); }
    if r > 1.0 { MulPositive(r - 1.0, d); }
    if 0.0 < r < 1.0 {
      MulPositive(r, d);
      MulPositive(1.0 - r, d);
    }
  }

  /** Normalisation against fixed bounds preserves and reflects strict order. */
  lemma NormaliseMonotone(a: real, b: real, min_: real, max_: real)
    requires NormaliseMinMax(a, min_, max_).Success? && NormaliseMinMax(b, min_, max_).Success?
    ensures a < b <==> NormaliseMinMax(a, min_, max_).value < NormaliseMinMax(b, min_, max_).value
  {
    var ra, rb := NormaliseMinMax(a, min_, max_).value, NormaliseMinMax(b, min_, max_).value;
    var d := max_ - min_;
    assert min_ + ra * d == a && min_ + rb * d == b;
    if ra < rb {
      var gap := rb - ra;
      MulPositive(gap, d);
      assert gap * d == b - a;
    } else if rb < ra {
      var gap := ra - rb;
      MulPositive(gap, d);
      assert gap * d == a - b;
    }
  }

  // ---------------------------------------------------------------------------
  // LazyMapping

  /**
   * A read-only mapping whose contents come from a loader that is run on the
   * first access and cached in innerMapping. The ghost counter loads records
   * how many times the loader has run.
   */
  class LazyMapping<K(==), V> {
    const loader: () -> map<K, V>
    var innerMapping: Option<map<K, V>>
    ghost var loads: nat

    /** The loader has run at most once, and exactly when the cache is filled with its result. */
    ghost predicate Valid()
      reads this
    {
      && loads <= 1
      && (innerMapping.Some? <==> loads == 1)
      && (innerMapping.Some? ==> innerMapping.value == loader())
    }

    constructor (loader: () -> map<K, V>)
      ensures Valid()
      ensures this.loader == loader && innerMapping == None && loads == 0
    {
      this.loader := loader;
      innerMapping := None;
      loads := 0;
    }

    /** _mapping: runs the loader only while nothing is cached, then serves the cache. */
    method Mapping() returns (m: map<K, V>)
      requires Valid()
      modifies this`innerMapping, this`loads
      ensures Valid()
      ensures m == loader() && innerMapping == Some(m) && loads == 1
      ensures old(innerMapping).Some? ==> m == old(innerMapping).value && loads == old(loads)
      ensures old(innerMapping).None? ==> loads == old(loads) + 1
    {
      if innerMapping.None? {
        innerMapping := Some(loader());
        loads := loads + 1;
      }
      m := innerMapping.value;
    }

    /** __getitem__: the loaded mapping's value for the key, or KeyError. */
    method GetItem(key: K) returns (r: Result<V, Error>)
      requires Valid()
      modifies this`innerMapping, this`loads
      ensures Valid() && innerMapping == Some(loader()) && loads == 1
      ensures key in loader() ==> r == Success(loader()[key])
      ensures key !in loader() ==> r == Failure(KeyError)
    {
      var m := Mapping();
      if key in m {
        r := Success(m[key]);
      } else {
        r := Failure(KeyError);
      }
    }

    /** __iter__: the keys of the loaded mapping. */
    method Iter() returns (keys: set<K>)
      requires Valid()
      modifies this`innerMapping, this`loads
      ensures Valid() && innerMapping == Some(loader()) && loads == 1
      ensures keys == loader().Keys
    {
      var m := Mapping();
      keys := m.Keys;
    }

    /** __len__: the number of entries of the loaded mapping. */
    method Len() returns (n: nat)
      requires Valid()
      modifies this`innerMapping, this`loads
      ensures Valid() && innerMapping == Some(loader()) && loads == 1
      ensures n == |loader()|
    {
      var m := Mapping();
      n := |m|;
    }
  }
}
