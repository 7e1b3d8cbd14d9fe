/**
 An executed result as a dense dataset: its coordinates are the values that appear in it, and its
 data is reshaped when the rows are already the whole grid in C order, and scattered otherwise.
 */
module ResultDataset {
  import opened CoordLookups
  import opened CoordTables
  import opened Grid
  import opened NdArrays
  import opened Scatter
  import opened Wrappers

  // ---------------------------------------------------------------------
  // Coordinates of a result
  // ---------------------------------------------------------------------

  /** `pd.unique`: the values in the order they first appear. */
  function UniqueOf<V(==, !new)>(vals: seq<V>): (u: seq<V>)
    ensures Distinct(u) && forall v :: v in u <==> v in vals
  {
    if vals == [] then []
    else
      var last := vals[|vals| - 1];
      assert vals == vals[..|vals| - 1] + [last];
      var u := UniqueOf(vals[..|vals| - 1]);
      if last in u then u else u + [last]
  }

  ghost predicate FirstAt(vals: seq<Coord>, v: Coord, p: nat) {
    p < |vals| && vals[p] == v && v !in vals[..p]
  }

  /** Earlier coordinates first appear in earlier rows. */
  lemma {:induction false} UniqueInOrder(vals: seq<Coord>, i: nat, j: nat, p: nat, q: nat)
    requires i < j < |UniqueOf(vals)|
    requires FirstAt(vals, UniqueOf(vals)[i], p) && FirstAt(vals, UniqueOf(vals)[j], q)
    ensures p < q
  {
    var init := vals[..|vals| - 1];
    assert vals == init + [vals[|vals| - 1]];
    var u := UniqueOf(init);
    assert UniqueOf(vals)[i] in u;
    assert vals[..|init|] == init;
    assert p < |init|;
    if q < |init| {
      assert init[..p] == vals[..p] && init[..q] == vals[..q];
      assert UniqueOf(vals)[j] in init by { assert init[q] == vals[q]; }
      UniqueInOrder(init, i, j, p, q);
    }
  }

  function ColumnOf<T>(rows: seq<ResultRow<T>>, d: nat): (col: seq<Coord>)
    requires forall i :: 0 <= i < |rows| ==> d < |rows[i].coords|
    ensures |col| == |rows| && forall i :: 0 <= i < |rows| ==> col[i] == rows[i].coords[d]
  {
    seq(|rows|, i requires 0 <= i < |rows| => rows[i].coords[d])
  }

  /** What the type of a dimension column allows: affine arithmetic, a hash index. */
  datatype ColumnKind = ColumnKind(numeric: bool, hashable: bool)

  predicate HaveDims<T>(rows: seq<ResultRow<T>>, n: nat) {
    forall i :: 0 <= i < |rows| ==> |rows[i].coords| == n
  }

  function ResultAxes<T>(rows: seq<ResultRow<T>>, kinds: seq<ColumnKind>): (axes: seq<Axis>)
    requires HaveDims(rows, |kinds|)
    ensures |axes| == |kinds|
    ensures forall d :: 0 <= d < |axes| ==> axes[d].values == UniqueOf(ColumnOf(rows, d))
  {
    seq(|kinds|, d requires 0 <= d < |kinds| =>
      Axis(UniqueOf(ColumnOf(rows, d)), kinds[d].numeric, kinds[d].hashable))
  }

  /** The rows of a result lie on its own axes, and those are repeat-free. */
  lemma ResultOnAxes<T>(rows: seq<ResultRow<T>>, kinds: seq<ColumnKind>)
    requires HaveDims(rows, |kinds|)
    ensures DistinctAxes(ResultAxes(rows, kinds)) && OnAxes(rows, ResultAxes(rows, kinds))
  {
    var axes := ResultAxes(rows, kinds);
    forall i | 0 <= i < |rows| ensures CoordsOn(rows[i].coords, axes) {
      forall d | 0 <= d < |axes| ensures rows[i].coords[d] in axes[d].values {
        assert ColumnOf(rows, d)[i] == rows[i].coords[d];
      }
    }
  }

  // ---------------------------------------------------------------------
  // Complete grids in C order
  // ---------------------------------------------------------------------

  /** Array equality, in which NaN equals nothing. */
  predicate SameNumber(a: Coord, b: Coord) {
    a.Num? && a == b
  }

  /** Flat index of an element of a three-dimensional view. */
  function Flat(o: nat, m: nat, j: nat, s: nat, inner: nat): nat {
    (o * s + m) * inner + j
  }

  lemma FlatBound(o: nat, m: nat, j: nat, outer: nat, s: nat, inner: nat)
    requires o < outer && m < s && j < inner
    ensures Flat(o, m, j, s, inner) < outer * s * inner
    ensures (Flat(o, m, j, s, inner) / inner) % s == m
  {
    DigitBound(o, outer, m, s);
    DigitBound(o * s + m, outer * s, j, inner);
    DivModUnique(o * s + m, j, inner);
    DivModUnique(o, m, s);
  }

  lemma FlatOf(i: nat, outer: nat, s: nat, inner: nat) returns (o: nat, m: nat, j: nat)
    requires i < outer * s * inner
    ensures o < outer && m < s && j < inner && i == Flat(o, m, j, s, inner)
  {
    DivBound(i, outer * s, inner);
    DivBound(i / inner, outer, s);
    o, m, j := (i / inner) / s, (i / inner) % s, i % inner;
  }

  /** The column reshaped to `(outer, size, inner)` repeats the axis along its middle dimension. */
  predicate ViewMatches(col: seq<Coord>, vals: seq<Coord>, outer: nat, inner: nat)
    requires |col| == outer * |vals| * inner
  {
    forall o, m, j :: 0 <= o < outer && 0 <= m < |vals| && 0 <= j < inner ==>
      (FlatBound(o, m, j, outer, |vals|, inner); SameNumber(col[Flat(o, m, j, |vals|, inner)], vals[m]))
  }

  ghost predicate ColumnRepeats(col: seq<Coord>, vals: seq<Coord>, shape: seq<nat>, k: nat)
    requires k < |shape| && shape[k] == |vals|
  {
    |col| == Prod(shape) && forall i :: 0 <= i < |col| ==> col[i].Num? && col[i] == vals[Unravel(i, shape)[k]]
  }

  lemma ProdAt(shape: seq<nat>, k: nat)
    requires k < |shape|
    ensures Prod(shape) == Prod(shape[..k]) * shape[k] * Prod(shape[k + 1..])
  {
    assert shape == shape[..k] + shape[k..] && shape[k..][1..] == shape[k + 1..];
    ProdConcat(shape[..k], shape[k..]);
    MulAssoc(Prod(shape[..k]), shape[k], Prod(shape[k + 1..]));
  }

  lemma MatchAt(col: seq<Coord>, vals: seq<Coord>, outer: nat, inner: nat, i: nat, digit: nat)
    requires |col| == outer * |vals| * inner && ViewMatches(col, vals, outer, inner) && i < |col|
    requires inner > 0 && |vals| > 0 && digit == (i / inner) % |vals|
    ensures SameNumber(col[i], vals[digit])
  {
    var o, m, j := FlatOf(i, outer, |vals|, inner);
    FlatBound(o, m, j, outer, |vals|, inner);
  }

  lemma ViewIsRepeat(col: seq<Coord>, vals: seq<Coord>, shape: seq<nat>, k: nat)
    requires k < |shape| && shape[k] == |vals| && |col| == Prod(shape)
    ensures Prod(shape) == Prod(shape[..k]) * |vals| * Prod(shape[k + 1..])
    ensures ViewMatches(col, vals, Prod(shape[..k]), Prod(shape[k + 1..])) <==> ColumnRepeats(col, vals, shape, k)
  {
    ProdAt(shape, k);
    var outer, inner := Prod(shape[..k]), Prod(shape[k + 1..]);
    if ViewMatches(col, vals, outer, inner) {
      forall i | 0 <= i < |col| ensures SameNumber(col[i], vals[Unravel(i, shape)[k]]) {
        UnravelDigit(i, shape, k);
        MatchAt(col, vals, outer, inner, i, Unravel(i, shape)[k]);
      }
    }
    if ColumnRepeats(col, vals, shape, k) {
      forall o, m, j | 0 <= o < outer && 0 <= m < |vals| && 0 <= j < inner
        ensures Flat(o, m, j, |vals|, inner) < |col| && SameNumber(col[Flat(o, m, j, |vals|, inner)], vals[m])
      {
        FlatBound(o, m, j, outer, |vals|, inner);
        UnravelDigit(Flat(o, m, j, |vals|, inner), shape, k);
      }
    }
  }

  /** The rows are the cells of the grid, each once, in C order. */
  ghost predicate IsGrid<T>(rows: seq<ResultRow<T>>, axes: seq<Axis>)
    requires HaveDims(rows, |axes|)
  {
    && |rows| == Prod(AxisShape(axes)) > 0
    && forall k :: 0 <= k < |axes| ==> ColumnRepeats(ColumnOf(rows, k), axes[k].values, AxisShape(axes), k)
  }

  method COrderGrid<T>(rows: seq<ResultRow<T>>, axes: seq<Axis>) returns (grid: bool)
    requires HaveDims(rows, |axes|)
    ensures grid <==> IsGrid(rows, axes)
  {
    var shape := AxisShape(axes);
    if |rows| != Prod(shape) || |rows| == 0 {
      return false;
    }
    for k := 0 to |axes|
      invariant forall e :: 0 <= e < k ==> ColumnRepeats(ColumnOf(rows, e), axes[e].values, shape, e)
    {
      ViewIsRepeat(ColumnOf(rows, k), axes[k].values, shape, k);
      if !ViewMatches(ColumnOf(rows, k), axes[k].values, Prod(shape[..k]), Prod(shape[k + 1..])) {
        return false;
      }
    }
    return true;
  }

  // ---------------------------------------------------------------------
  // Reshape against scatter
  // ---------------------------------------------------------------------

  function Reshaped<T>(rows: seq<ResultRow<T>>, shape: seq<nat>): NdArray<Option<T>> {
    NdArray(shape, seq(|rows|, i requires 0 <= i < |rows| => Some(rows[i].value)))
  }

  lemma GridRow<T>(rows: seq<ResultRow<T>>, axes: seq<Axis>, i: nat)
    requires HaveDims(rows, |axes|) && IsGrid(rows, axes) && i < |rows|
    ensures rows[i].coords == CoordsAt(axes, Unravel(i, AxisShape(axes)))
  {
    forall k | 0 <= k < |axes| ensures rows[i].coords[k] == CoordsAt(axes, Unravel(i, AxisShape(axes)))[k] {
      assert ColumnRepeats(ColumnOf(rows, k), axes[k].values, AxisShape(axes), k);
      assert ColumnOf(rows, k)[i] == axes[k].values[Unravel(i, AxisShape(axes))[k]];
    }
  }

  lemma CoordsInjective(axes: seq<Axis>, a: seq<nat>, b: seq<nat>)
    requires DistinctAxes(axes) && InGrid(a, AxisShape(axes)) && InGrid(b, AxisShape(axes))
    requires CoordsAt(axes, a) == CoordsAt(axes, b)
    ensures a == b
  {
    forall d | 0 <= d < |axes| ensures a[d] == b[d] {
      assert axes[d].values[a[d]] == CoordsAt(axes, a)[d] == CoordsAt(axes, b)[d] == axes[d].values[b[d]];
      assert Distinct(axes[d].values);
    }
  }

  lemma GridRowsDistinct<T>(rows: seq<ResultRow<T>>, axes: seq<Axis>)
    requires HaveDims(rows, |axes|) && IsGrid(rows, axes) && DistinctAxes(axes)
    ensures DistinctTuples(rows)
  {
    var shape := AxisShape(axes);
    forall i, j | 0 <= i < j < |rows| ensures rows[i].coords != rows[j].coords {
      GridRow(rows, axes, i);
      GridRow(rows, axes, j);
      if rows[i].coords == rows[j].coords {
        CoordsInjective(axes, Unravel(i, shape), Unravel(j, shape));
        RavelUnravel(i, shape);
        RavelUnravel(j, shape);
      }
    }
  }

  /** Whenever the grid test accepts, reshaping gives what scattering would. */
  lemma ReshapeIsDense<T>(rows: seq<ResultRow<T>>, axes: seq<Axis>)
    requires HaveDims(rows, |axes|) && IsGrid(rows, axes) && DistinctAxes(axes)
    ensures IsDense(Reshaped(rows, AxisShape(axes)), rows, axes)
  {
    GridRowsDistinct(rows, axes);
    var a := Reshaped(rows, AxisShape(axes));
    forall i | 0 <= i < |a.data| ensures a.data[i] == ValueAt(rows, CoordsAt(axes, Unravel(i, a.shape))) {
      GridRow(rows, axes, i);
      ValueOfRow(rows, i);
    }
  }

  /** The dense dataset of a result, one variable of it. */
  method DatasetFromBatches<T>(batches: seq<ResultBatch<T>>, kinds: seq<ColumnKind>)
    returns (axes: seq<Axis>, dense: NdArray<Option<T>>)
    requires HaveDims(Flatten(batches), |kinds|)
    ensures axes == ResultAxes(Flatten(batches), kinds)
    ensures IsDense(dense, Flatten(batches), axes)
  {
    var rows := Flatten(batches);
    axes := ResultAxes(rows, kinds);
    ResultOnAxes(rows, kinds);
    var grid := COrderGrid(rows, axes);
    if grid {
      ReshapeIsDense(rows, axes);
      dense := Reshaped(rows, AxisShape(axes));
    } else {
      OnAxesPlaceable(rows, axes);
      var r := ScatterBatches(batches, axes);
      dense := r.value;
      ScatterIsDense(dense, rows, axes);
    }
  }

  /**
   Round trip: rows with distinct coordinate tuples, in any order and any batching, come back as an
   array that has each value at the cell its coordinates name and nothing anywhere else.
   */
  lemma RoundTrip<T>(rows: seq<ResultRow<T>>, axes: seq<Axis>, dense: NdArray<Option<T>>, cell: seq<nat>)
    requires DistinctTuples(rows) && IsDense(dense, rows, axes) && InGrid(cell, AxisShape(axes))
    ensures forall i :: 0 <= i < |rows| && rows[i].coords == CoordsAt(axes, cell) ==>
              dense.At(cell) == Some(rows[i].value)
    ensures dense.At(cell).None? <==> forall i :: 0 <= i < |rows| ==> rows[i].coords != CoordsAt(axes, cell)
  {
    UnravelRavel(cell, AxisShape(axes));
    NoSuchRow(rows, CoordsAt(axes, cell));
    forall i | 0 <= i < |rows| && rows[i].coords == CoordsAt(axes, cell) ensures dense.At(cell) == Some(rows[i].value) {
      ValueOfRow(rows, i);
    }
  }
}
