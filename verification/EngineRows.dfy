/**
 Rows as a query engine holds them and as NumPy shows them. A dimension cell may be NULL in the
 engine, which a NaT is too; converted to NumPy, a NULL becomes the same marker as a NaN number.
 */
module EngineRows {
  import opened CoordTables
  import opened Grid
  import opened Scatter

  /** A dimension cell of the engine: a value, or NULL. */
  datatype Key = Known(c: Coord) | Missing {

    function ToNumpy(): Coord {
      match this
      case Known(c) => c
      case Missing => NaN
    }
  }

  datatype EngineRow<T> = EngineRow(keys: seq<Key>, value: T)

  type EngineBatch<T> = seq<EngineRow<T>>

  function CoordsOf(keys: seq<Key>): (coords: seq<Coord>)
    ensures |coords| == |keys| && forall d :: 0 <= d < |keys| ==> coords[d] == keys[d].ToNumpy()
  {
    seq(|keys|, d requires 0 <= d < |keys| => keys[d].ToNumpy())
  }

  function View<T>(row: EngineRow<T>): ResultRow<T> {
    ResultRow(CoordsOf(row.keys), row.value)
  }

  function Views<T>(rows: seq<EngineRow<T>>): (views: seq<ResultRow<T>>)
    ensures |views| == |rows| && forall i :: 0 <= i < |rows| ==> views[i] == View(rows[i])
  {
    seq(|rows|, i requires 0 <= i < |rows| => View(rows[i]))
  }

  function ViewBatches<T>(batches: seq<EngineBatch<T>>): (views: seq<ResultBatch<T>>)
    ensures |views| == |batches| && forall b :: 0 <= b < |batches| ==> views[b] == Views(batches[b])
  {
    seq(|batches|, b requires 0 <= b < |batches| => Views(batches[b]))
  }

  /** Converting batch by batch converts the rows. */
  lemma {:induction false} FlattenViews<T>(batches: seq<EngineBatch<T>>)
    ensures Flatten(ViewBatches(batches)) == Views(Flatten(batches))
  {
    if batches != [] {
      var n := |batches| - 1;
      FlattenViews(batches[..n]);
      assert ViewBatches(batches)[..n] == ViewBatches(batches[..n]);
      assert Views(Flatten(batches[..n]) + batches[n]) == Views(Flatten(batches[..n])) + Views(batches[n]);
    }
  }

  /** Rows whose converted coordinates are all different are different rows. */
  lemma SameView<T>(rows: seq<EngineRow<T>>, a: EngineRow<T>, b: EngineRow<T>)
    requires DistinctTuples(Views(rows)) && a in rows && b in rows && CoordsOf(a.keys) == CoordsOf(b.keys)
    ensures a == b
  {
    var i :| 0 <= i < |rows| && rows[i] == a;
    var j :| 0 <= j < |rows| && rows[j] == b;
    assert Views(rows)[i].coords == Views(rows)[j].coords;
  }
}
