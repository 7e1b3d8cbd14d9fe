/**
 The reverse pivot: result rows in any order back into dense arrays. Rows are scattered to the
 cells their coordinates name, or reshaped when they are already the whole grid in C order.
 */
module Scatter {
  import opened CoordLookups
  import opened CoordTables
  import opened Grid
  import opened NdArrays
  import opened Wrappers

  datatype ResultRow<T> = ResultRow(coords: seq<Coord>, value: T)

  type ResultBatch<T> = seq<ResultRow<T>>

  function AxisShape(axes: seq<Axis>): (shape: seq<nat>)
    ensures |shape| == |axes| && forall d :: 0 <= d < |axes| ==> shape[d] == |axes[d].values|
  {
    seq(|axes|, d requires 0 <= d < |axes| => |axes[d].values|)
  }

  // ---------------------------------------------------------------------
  // Cells
  // ---------------------------------------------------------------------

  /** A position as an array index: negative ones count from the end, and others out of range raise. */
  function WrapIndex(p: int, n: nat): (i: Option<nat>)
    ensures i.Some? ==> i.value < n
    ensures 0 <= p < n ==> i == Some(p)
  {
    if 0 <= p < n then Some(p) else if 0 - n <= p < 0 then Some(p + n) else None
  }

  function IndexFor(axis: Axis, v: Coord): (i: Option<nat>)
    ensures i.Some? ==> i.value < |axis.values|
  {
    match PositionFor(axis, v)
    case None => None
    case Some(p) => WrapIndex(p, |axis.values|)
  }

  /** The cell a row is written to; `None` when a lookup raises. */
  function CellOf(axes: seq<Axis>, coords: seq<Coord>): (cell: Option<seq<nat>>)
    requires |coords| == |axes|
    ensures cell.Some? ==> InGrid(cell.value, AxisShape(axes))
  {
    if forall d :: 0 <= d < |axes| ==> IndexFor(axes[d], coords[d]).Some? then
      Some(seq(|axes|, d requires 0 <= d < |axes| => IndexFor(axes[d], coords[d]).value))
    else None
  }

  predicate WideRows<T>(rows: seq<ResultRow<T>>, axes: seq<Axis>) {
    forall i :: 0 <= i < |rows| ==> |rows[i].coords| == |axes|
  }

  predicate Placeable<T>(rows: seq<ResultRow<T>>, axes: seq<Axis>)
    requires WideRows(rows, axes)
  {
    forall i :: 0 <= i < |rows| ==> CellOf(axes, rows[i].coords).Some?
  }

  /** What ends up in a cell: the value of the last row written to it. */
  function LastWrite<T>(rows: seq<ResultRow<T>>, axes: seq<Axis>, cell: seq<nat>): Option<T>
    requires WideRows(rows, axes)
  {
    if rows == [] then None
    else
      var last := rows[|rows| - 1];
      if CellOf(axes, last.coords) == Some(cell) then Some(last.value)
      else LastWrite(rows[..|rows| - 1], axes, cell)
  }

  // ---------------------------------------------------------------------
  // Scatter
  // ---------------------------------------------------------------------

  ghost predicate Holds<T>(out: seq<Option<T>>, rows: seq<ResultRow<T>>, axes: seq<Axis>)
    requires WideRows(rows, axes)
  {
    && |out| == Prod(AxisShape(axes))
    && forall i :: 0 <= i < |out| ==> out[i] == LastWrite(rows, axes, Unravel(i, AxisShape(axes)))
  }

  lemma HoldsSnoc<T>(out: seq<Option<T>>, rows: seq<ResultRow<T>>, axes: seq<Axis>, row: ResultRow<T>)
    requires WideRows(rows, axes) && Holds(out, rows, axes)
    requires |row.coords| == |axes| && CellOf(axes, row.coords).Some?
    ensures var f := Ravel(CellOf(axes, row.coords).value, AxisShape(axes));
            f < |out| && Holds(out[f := Some(row.value)], rows + [row], axes)
  {
    var shape := AxisShape(axes);
    var cell := CellOf(axes, row.coords).value;
    var f := Ravel(cell, shape);
    var more := rows + [row];
    assert more[..|rows|] == rows;
    forall i | 0 <= i < |out| ensures out[f := Some(row.value)][i] == LastWrite(more, axes, Unravel(i, shape)) {
      UnravelRavel(cell, shape);
      RavelUnravel(i, shape);
    }
  }

  /**
   Writes every row to its cell, batch after batch. Cells no row names stay unwritten, which is
   NaN for floating-point outputs. A lookup that raises ends it.
   */
  method ScatterBatches<T>(batches: seq<ResultBatch<T>>, axes: seq<Axis>) returns (r: Option<NdArray<Option<T>>>)
    requires WideRows(Flatten(batches), axes)
    ensures r.Some? <==> Placeable(Flatten(batches), axes)
    ensures r.Some? ==> r.value.shape == AxisShape(axes) && Holds(r.value.data, Flatten(batches), axes)
  {
    var out := new Option<T>[Prod(AxisShape(axes))](_ => None);
    assert Holds(out[..], [], axes);
    for b := 0 to |batches|
      invariant Scattered(out[..], batches, b, axes)
    {
      BatchFollows(batches, b, axes);
      var ok := ScatterBatch(out, Flatten(batches[..b]), batches[b], axes);
      if !ok {
        NotPlaceable(batches, b, axes);
        return None;
      }
      PlaceableBatch(Flatten(batches[..b]), batches[b], axes);
    }
    assert batches[..|batches|] == batches;
    return Some(NdArray(AxisShape(axes), out[..]));
  }

  /** The first batches have been written. */
  ghost predicate Scattered<T>(out: seq<Option<T>>, batches: seq<ResultBatch<T>>, b: nat, axes: seq<Axis>) {
    && b <= |batches|
    && var rows := Flatten(batches[..b]);
       WideRows(rows, axes) && Placeable(rows, axes) && Holds(out, rows, axes)
  }

  lemma BatchFollows<T>(batches: seq<ResultBatch<T>>, b: nat, axes: seq<Axis>)
    requires b < |batches| && WideRows(Flatten(batches), axes)
    ensures Flatten(batches[..b + 1]) == Flatten(batches[..b]) + batches[b]
    ensures WideRows(Flatten(batches[..b]), axes) && WideRows(Flatten(batches[..b + 1]), axes)
  {
    assert batches[..b + 1][..b] == batches[..b];
    AllRowsPrefix(batches, b);
    AllRowsPrefix(batches, b + 1);
  }

  lemma NotPlaceable<T>(batches: seq<ResultBatch<T>>, b: nat, axes: seq<Axis>)
    requires b < |batches| && WideRows(Flatten(batches), axes)
    requires exists i :: 0 <= i < |batches[b]| &&
               !(|batches[b][i].coords| == |axes| && CellOf(axes, batches[b][i].coords).Some?)
    ensures !Placeable(Flatten(batches), axes)
  {
    var i :| 0 <= i < |batches[b]| && !(|batches[b][i].coords| == |axes| && CellOf(axes, batches[b][i].coords).Some?);
    BatchFollows(batches, b, axes);
    AllRowsPrefix(batches, b + 1);
    var k := |Flatten(batches[..b])| + i;
    assert Flatten(batches)[k] == batches[b][i];
  }

  lemma PlaceableBatch<T>(rows: seq<ResultRow<T>>, batch: ResultBatch<T>, axes: seq<Axis>)
    requires WideRows(rows, axes) && Placeable(rows, axes)
    requires forall i :: 0 <= i < |batch| ==> |batch[i].coords| == |axes| && CellOf(axes, batch[i].coords).Some?
    ensures WideRows(rows + batch, axes) && Placeable(rows + batch, axes)
  {}

  lemma {:induction false} AllRowsPrefix<T>(batches: seq<ResultBatch<T>>, n: nat)
    requires n <= |batches|
    ensures Flatten(batches[..n]) <= Flatten(batches)
    decreases |batches| - n
  {
    if n == |batches| {
      assert batches[..n] == batches;
    } else {
      AllRowsPrefix(batches, n + 1);
      assert batches[..n + 1][..n] == batches[..n];
    }
  }

  method WriteRow<T>(out: array<Option<T>>, ghost rows: seq<ResultRow<T>>, row: ResultRow<T>, axes: seq<Axis>)
    requires WideRows(rows, axes) && Holds(out[..], rows, axes)
    requires |row.coords| == |axes| && CellOf(axes, row.coords).Some?
    modifies out
    ensures WideRows(rows + [row], axes) && Holds(out[..], rows + [row], axes)
  {
    HoldsSnoc(out[..], rows, axes, row);
    var f := Ravel(CellOf(axes, row.coords).value, AxisShape(axes));
    ghost var before := out[..];
    out[f] := Some(row.value);
    assert out[..] == before[f := Some(row.value)];
  }

  /** One batch: all positions are looked up before any value is written. */
  method ScatterBatch<T>(out: array<Option<T>>, ghost rows: seq<ResultRow<T>>, batch: ResultBatch<T>, axes: seq<Axis>)
    returns (ok: bool)
    requires WideRows(rows, axes) && WideRows(rows + batch, axes) && Holds(out[..], rows, axes)
    modifies out
    ensures ok <==> (forall i :: 0 <= i < |batch| ==>
              |batch[i].coords| == |axes| && CellOf(axes, batch[i].coords).Some?)
    ensures ok ==> Holds(out[..], rows + batch, axes)
    ensures !ok ==> out[..] == old(out[..])
  {
    forall i | 0 <= i < |batch| ensures |batch[i].coords| == |axes| {
      assert batch[i] == (rows + batch)[|rows| + i];
    }
    if exists i :: 0 <= i < |batch| && CellOf(axes, batch[i].coords).None? {
      return false;
    }
    assert rows + batch[..0] == rows;
    for i := 0 to |batch|
      invariant WideRows(rows + batch[..i], axes) && Holds(out[..], rows + batch[..i], axes)
    {
      assert rows + batch[..i + 1] == (rows + batch[..i]) + [batch[i]];
      WriteRow(out, rows + batch[..i], batch[i], axes);
    }
    assert batch[..|batch|] == batch;
    return true;
  }

  // ---------------------------------------------------------------------
  // Values by coordinates
  // ---------------------------------------------------------------------

  /** The coordinates of a cell. */
  function CoordsAt(axes: seq<Axis>, cell: seq<nat>): (coords: seq<Coord>)
    requires InGrid(cell, AxisShape(axes))
    ensures |coords| == |axes|
  {
    seq(|axes|, d requires 0 <= d < |axes| => axes[d].values[cell[d]])
  }

  /** The value of the last row that has the given coordinates. */
  function ValueAt<T>(rows: seq<ResultRow<T>>, coords: seq<Coord>): Option<T> {
    if rows == [] then None
    else if rows[|rows| - 1].coords == coords then Some(rows[|rows| - 1].value)
    else ValueAt(rows[..|rows| - 1], coords)
  }

  ghost predicate DistinctAxes(axes: seq<Axis>) {
    forall d :: 0 <= d < |axes| ==> Distinct(axes[d].values)
  }

  ghost predicate OnAxes<T>(rows: seq<ResultRow<T>>, axes: seq<Axis>) {
    forall i :: 0 <= i < |rows| ==> CoordsOn(rows[i].coords, axes)
  }

  ghost predicate CoordsOn(coords: seq<Coord>, axes: seq<Axis>) {
    |coords| == |axes| && forall d :: 0 <= d < |axes| ==> coords[d] in axes[d].values
  }

  /** Coordinates on the axes name exactly one cell: the one that has them. */
  lemma CellOfCoords(axes: seq<Axis>, coords: seq<Coord>, cell: seq<nat>)
    requires DistinctAxes(axes) && CoordsOn(coords, axes) && InGrid(cell, AxisShape(axes))
    ensures CellOf(axes, coords).Some?
    ensures CellOf(axes, coords) == Some(cell) <==> CoordsAt(axes, cell) == coords
  {
    forall d | 0 <= d < |axes|
      ensures IndexFor(axes[d], coords[d]).Some? && axes[d].values[IndexFor(axes[d], coords[d]).value] == coords[d]
    {
      LookupHolds(axes[d], coords[d]);
    }
    var home := CellOf(axes, coords).value;
    if CoordsAt(axes, cell) == coords {
      forall d | 0 <= d < |axes| ensures home[d] == cell[d] {
        assert axes[d].values[cell[d]] == CoordsAt(axes, cell)[d];
        assert Distinct(axes[d].values);
      }
      assert home == cell;
    }
    if home == cell {
      assert CoordsAt(axes, cell) == coords;
    }
  }

  lemma {:induction false} LastWriteIsValueAt<T>(rows: seq<ResultRow<T>>, axes: seq<Axis>, cell: seq<nat>)
    requires DistinctAxes(axes) && OnAxes(rows, axes) && WideRows(rows, axes) && InGrid(cell, AxisShape(axes))
    ensures LastWrite(rows, axes, cell) == ValueAt(rows, CoordsAt(axes, cell))
  {
    if rows != [] {
      CellOfCoords(axes, rows[|rows| - 1].coords, cell);
      LastWriteIsValueAt(rows[..|rows| - 1], axes, cell);
    }
  }

  /** The array whose cells hold the values of the rows with their coordinates. */
  ghost predicate IsDense<T>(a: NdArray<Option<T>>, rows: seq<ResultRow<T>>, axes: seq<Axis>) {
    && a.shape == AxisShape(axes) && a.Valid()
    && forall i :: 0 <= i < |a.data| ==> a.data[i] == ValueAt(rows, CoordsAt(axes, Unravel(i, a.shape)))
  }

  /** Scattering rows that lie on distinct axes puts each value at the cell its coordinates name. */
  lemma ScatterIsDense<T>(a: NdArray<Option<T>>, rows: seq<ResultRow<T>>, axes: seq<Axis>)
    requires DistinctAxes(axes) && OnAxes(rows, axes) && WideRows(rows, axes)
    requires a.shape == AxisShape(axes) && Holds(a.data, rows, axes)
    ensures IsDense(a, rows, axes)
  {
    forall i | 0 <= i < |a.data| ensures a.data[i] == ValueAt(rows, CoordsAt(axes, Unravel(i, a.shape))) {
      LastWriteIsValueAt(rows, axes, Unravel(i, a.shape));
    }
  }

  lemma OnAxesPlaceable<T>(rows: seq<ResultRow<T>>, axes: seq<Axis>)
    requires DistinctAxes(axes) && OnAxes(rows, axes)
    ensures WideRows(rows, axes) && Placeable(rows, axes)
  {
    forall i | 0 <= i < |rows| ensures CellOf(axes, rows[i].coords).Some? {
      forall d | 0 <= d < |axes| ensures IndexFor(axes[d], rows[i].coords[d]).Some? {
        assert CoordsOn(rows[i].coords, axes);
        LookupHolds(axes[d], rows[i].coords[d]);
      }
    }
  }

  ghost predicate DistinctTuples<T>(rows: seq<ResultRow<T>>) {
    forall i, j :: 0 <= i < j < |rows| ==> rows[i].coords != rows[j].coords
  }

  /** With distinct coordinate tuples the order of the rows does not matter. */
  lemma {:induction false} ValueOfRow<T>(rows: seq<ResultRow<T>>, i: nat)
    requires DistinctTuples(rows) && i < |rows|
    ensures ValueAt(rows, rows[i].coords) == Some(rows[i].value)
  {
    if i < |rows| - 1 { ValueOfRow(rows[..|rows| - 1], i); }
  }

  lemma {:induction false} NoSuchRow<T>(rows: seq<ResultRow<T>>, coords: seq<Coord>)
    ensures ValueAt(rows, coords).None? <==> forall i :: 0 <= i < |rows| ==> rows[i].coords != coords
  {
    if rows != [] { NoSuchRow(rows[..|rows| - 1], coords); }
  }
}
