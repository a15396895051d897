/**
 * Python built-ins the modelled code leans on (sum, min, max, nested list
 * comprehensions that stop at the first exception), written over sequences.
 */
module Seqs {
  import opened Wrappers

  /** Python's sum() over reals. */
  function Sum(s: seq<real>): real
  {
    if s == [] then 0.0 else s[0] + Sum(s[1..])
  }

  /** Python's min() over a non-empty sequence. */
  function SeqMin(s: seq<real>): (m: real)
    requires |s| > 0
    ensures m in s
    ensures forall k :: 0 <= k < |s| ==> m <= s[k]
  {
    if |s| == 1 then s[0]
    else
      var rest := SeqMin(s[1..]);
      assert forall k :: 1 <= k < |s| ==> s[k] == s[1..][k - 1];
      if s[0] <= rest then s[0] else rest
  }

  /** Python's max() over a non-empty sequence. */
  function SeqMax(s: seq<real>): (m: real)
    requires |s| > 0
    ensures m in s
    ensures forall k :: 0 <= k < |s| ==> s[k] <= m
  {
    if |s| == 1 then s[0]
    else
      var rest := SeqMax(s[1..]);
      assert forall k :: 1 <= k < |s| ==> s[k] == s[1..][k - 1];
      if rest <= s[0] then s[0] else rest
  }

  /** min() bounds every member, not only every index. */
  lemma SeqMinBoundsMember(s: seq<real>, v: real)
    requires v in s
    ensures SeqMin(s) <= v
  {
    var k :| 0 <= k < |s| && s[k] == v;
  }

  /** max() bounds every member, not only every index. */
  lemma SeqMaxBoundsMember(s: seq<real>, v: real)
    requires v in s
    ensures v <= SeqMax(s)
  {
    var k :| 0 <= k < |s| && s[k] == v;
  }

  /** The number of elements over all rows: sum(len(row) for row in rows). */
  function TotalLength<T>(rows: seq<seq<T>>): nat
  {
    if rows == [] then 0 else TotalLength(rows[..|rows| - 1]) + |rows[|rows| - 1]|
  }

  /** The rows concatenated in order. */
  function Flatten<T>(rows: seq<seq<T>>): (r: seq<T>)
    ensures |r| == TotalLength(rows)
  {
    if rows == [] then [] else Flatten(rows[..|rows| - 1]) + rows[|rows| - 1]
  }

  /** Two nested sequences with the same number of rows and the same row lengths. */
  predicate SameShape<A, B>(a: seq<seq<A>>, b: seq<seq<B>>)
  {
    |a| == |b| && forall i :: 0 <= i < |a| ==> |a[i]| == |b[i]|
  }

  lemma TotalLengthStep<T>(rows: seq<seq<T>>, i: nat)
    requires i < |rows|
    ensures TotalLength(rows[..i + 1]) == TotalLength(rows[..i]) + |rows[i]|
  {
    assert rows[..i + 1][..i] == rows[..i];
  }

  /** A prefix never has more elements than the whole. */
  lemma {:induction false} TotalLengthPrefix<T>(rows: seq<seq<T>>, i: nat)
    requires i <= |rows|
    ensures TotalLength(rows[..i]) <= TotalLength(rows)
  {
    if i < |rows| {
      var init := rows[..|rows| - 1];
      assert rows[..i] == init[..i];
      TotalLengthPrefix(init, i);
    } else {
      assert rows[..i] == rows;
    }
  }

  /** Element j of row i sits at TotalLength(rows[..i]) + j in the flattened rows. */
  lemma {:induction false} FlattenIndex<T>(rows: seq<seq<T>>, i: nat, j: nat)
    requires i < |rows| && j < |rows[i]|
    ensures TotalLength(rows[..i]) + j < |Flatten(rows)|
    ensures Flatten(rows)[TotalLength(rows[..i]) + j] == rows[i][j]
  {
    var init := rows[..|rows| - 1];
    if i == |rows| - 1 {
      assert rows[..i] == init;
    } else {
      assert init[..i] == rows[..i];
      FlattenIndex(init, i, j);
      TotalLengthPrefix(init, i + 1);
      TotalLengthStep(init, i);
    }
  }

  /** Every element of the flattened rows comes from some row. */
  lemma {:induction false} FlattenMember<T>(rows: seq<seq<T>>, x: T)
    requires x in Flatten(rows)
    ensures exists i, j :: 0 <= i < |rows| && 0 <= j < |rows[i]| && rows[i][j] == x
  {
    var init, last := rows[..|rows| - 1], rows[|rows| - 1];
    if x in Flatten(init) {
      FlattenMember(init, x);
      var i, j :| 0 <= i < |init| && 0 <= j < |init[i]| && init[i][j] == x;
      assert rows[i][j] == x;
    } else {
      var k :| 0 <= k < |Flatten(rows)| && Flatten(rows)[k] == x;
      assert rows[|rows| - 1][k - |Flatten(init)|] == x;
    }
  }

  /**
   * A comprehension over one row whose element function may raise: the list
   * of results, or the error of the first element that fails.
   */
  function TryMap<A, B, E>(row: seq<A>, f: A -> Result<B, E>): (r: Result<seq<B>, E>)
    ensures r.Success? <==> forall k :: 0 <= k < |row| ==> f(row[k]).Success?
    ensures r.Success? ==> |r.value| == |row| && forall k :: 0 <= k < |row| ==> r.value[k] == f(row[k]).value
    ensures r.Failure? ==> exists k :: 0 <= k < |row| && f(row[k]) == Failure(r.error)
  {
    if row == [] then Success([])
    else
      var init := row[..|row| - 1];
      assert forall k :: 0 <= k < |init| ==> init[k] == row[k];
      match TryMap(init, f)
      case Failure(e) => Failure(e)
      case Success(vs) =>
        match f(row[|row| - 1])
        case Failure(e) => Failure(e)
        case Success(v) => Success(vs + [v])
  }

  /**
   * A nested comprehension, row by row, whose element function may raise:
   * the nested results, or the error of the first failing element in
   * row-major order.
   */
  function TryMapRows<A, B, E>(rows: seq<seq<A>>, f: A -> Result<B, E>): (r: Result<seq<seq<B>>, E>)
    ensures r.Success? <==> forall i, j :: 0 <= i < |rows| && 0 <= j < |rows[i]| ==> f(rows[i][j]).Success?
    ensures r.Success? ==> SameShape(r.value, rows)
    ensures r.Success? ==> forall i, j :: 0 <= i < |rows| && 0 <= j < |rows[i]| ==> r.value[i][j] == f(rows[i][j]).value
    ensures r.Failure? ==> exists i, j :: 0 <= i < |rows| && 0 <= j < |rows[i]| && f(rows[i][j]) == Failure(r.error)
  {
    if rows == [] then Success([])
    else
      var init := rows[..|rows| - 1];
      assert forall i :: 0 <= i < |init| ==> init[i] == rows[i];
      match TryMapRows(init, f)
      case Failure(e) => Failure(e)
      case Success(vss) =>
        match TryMap(rows[|rows| - 1], f)
        case Failure(e) => Failure(e)
        case Success(vs) => Success(vss + [vs])
  }

  /** Mapping one more element of a row: the row so far, extended by that element's result or cut short by its error. */
  lemma TryMapExtend<A, B, E>(row: seq<A>, k: nat, f: A -> Result<B, E>)
    requires k < |row| && TryMap(row[..k], f).Success?
    ensures f(row[k]).Success? ==> TryMap(row[..k + 1], f) == Success(TryMap(row[..k], f).value + [f(row[k]).value])
    ensures f(row[k]).Failure? ==> TryMap(row[..k + 1], f) == Failure(f(row[k]).error)
  {
    assert row[..k + 1][..k] == row[..k];
  }

  /** Mapping one more row: the rows so far, extended by that row's results or cut short by its error. */
  lemma TryMapRowsExtend<A, B, E>(rows: seq<seq<A>>, k: nat, f: A -> Result<B, E>)
    requires k < |rows| && TryMapRows(rows[..k], f).Success?
    ensures TryMap(rows[k], f).Success? ==>
      TryMapRows(rows[..k + 1], f) == Success(TryMapRows(rows[..k], f).value + [TryMap(rows[k], f).value])
    ensures TryMap(rows[k], f).Failure? ==> TryMapRows(rows[..k + 1], f) == Failure(TryMap(rows[k], f).error)
  {
    assert rows[..k + 1][..k] == rows[..k];
  }

  /** Once a prefix of a row fails, the whole row fails with the same error. */
  lemma {:induction false} TryMapPrefixFails<A, B, E>(row: seq<A>, k: nat, f: A -> Result<B, E>)
    requires k <= |row| && TryMap(row[..k], f).Failure?
    ensures TryMap(row, f) == TryMap(row[..k], f)
  {
    if k < |row| {
      var init := row[..|row| - 1];
      assert init[..k] == row[..k];
      TryMapPrefixFails(init, k, f);
    } else {
      assert row[..k] == row;
    }
  }

  /** Once a prefix of the rows fails, the whole comprehension fails with the same error. */
  lemma {:induction false} TryMapRowsPrefixFails<A, B, E>(rows: seq<seq<A>>, k: nat, f: A -> Result<B, E>)
    requires k <= |rows| && TryMapRows(rows[..k], f).Failure?
    ensures TryMapRows(rows, f) == TryMapRows(rows[..k], f)
  {
    if k < |rows| {
      var init := rows[..|rows| - 1];
      assert init[..k] == rows[..k];
      TryMapRowsPrefixFails(init, k, f);
    } else {
      assert rows[..k] == rows;
    }
  }
}
