/** N-dimensional arrays: a shape and the elements in C order. */
module NdArrays {
  import opened Grid

  datatype NdArray<T> = NdArray(shape: seq<nat>, data: seq<T>) {

    predicate Valid() {
      |data| == Prod(shape)
    }

    function At(idx: seq<nat>): T
      requires Valid() && InGrid(idx, shape)
    {
      data[Ravel(idx, shape)]
    }
  }

  /** Arrays are equal when they agree at every index. */
  lemma SameElements<T>(a: NdArray<T>, b: NdArray<T>)
    requires a.Valid() && b.Valid() && a.shape == b.shape
    requires forall idx :: InGrid(idx, a.shape) ==> a.At(idx) == b.At(idx)
    ensures a == b
  {
    forall i | 0 <= i < |a.data| ensures a.data[i] == b.data[i] {
      var idx := Unravel(i, a.shape);
      RavelUnravel(i, a.shape);
      assert a.At(idx) == b.At(idx);
    }
    assert a.data == b.data;
  }
}
