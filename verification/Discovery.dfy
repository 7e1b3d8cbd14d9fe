/**
 One pass over a streamed result: the whole result when it is small, and otherwise the coordinates
 of each dimension, from which the lazy arrays are built. The engine keeps NULL and NaN apart where
 NumPy does not.
 */
module Discovery {
  import opened CoordLookups
  import opened CoordTables
  import opened EngineRows
  import opened Grid
  import opened ResultDataset
  import opened Scatter
  import opened Wrappers

  const ONE_PASS_BYTES: nat := 64 * 0x10_0000

  /** A batch of the stream and its size in bytes. */
  datatype Streamed<T> = Streamed(batch: EngineBatch<T>, bytes: nat)

  function Batches<T>(stream: seq<Streamed<T>>): (bs: seq<EngineBatch<T>>)
    ensures |bs| == |stream| && forall i :: 0 <= i < |bs| ==> bs[i] == stream[i].batch
  {
    seq(|stream|, i requires 0 <= i < |stream| => stream[i].batch)
  }

  function TotalBytes<T>(stream: seq<Streamed<T>>): nat {
    if stream == [] then 0 else TotalBytes(stream[..|stream| - 1]) + stream[|stream| - 1].bytes
  }

  lemma {:induction false} BytesGrow<T>(stream: seq<Streamed<T>>, n: nat)
    requires n <= |stream|
    ensures TotalBytes(stream[..n]) <= TotalBytes(stream)
    decreases |stream| - n
  {
    if n < |stream| {
      BytesGrow(stream, n + 1);
      assert stream[..n + 1][..n] == stream[..n];
    } else {
      assert stream[..n] == stream;
    }
  }

  predicate HaveKeys<T>(rows: seq<EngineRow<T>>, n: nat) {
    forall i :: 0 <= i < |rows| ==> |rows[i].keys| == n
  }

  function KeysAt<T>(rows: seq<EngineRow<T>>, d: nat): (column: seq<Key>)
    requires forall i :: 0 <= i < |rows| ==> d < |rows[i].keys|
    ensures |column| == |rows| && forall i :: 0 <= i < |rows| ==> column[i] == rows[i].keys[d]
  {
    seq(|rows|, i requires 0 <= i < |rows| => rows[i].keys[d])
  }

  /** Some row has the cell on dimension `d`. */
  ghost predicate Occurs<T>(k: Key, rows: seq<EngineRow<T>>, d: nat) {
    exists i :: 0 <= i < |rows| && d < |rows[i].keys| && rows[i].keys[d] == k
  }

  /** The distinct cells of dimension `d` over some rows. */
  ghost predicate IsDistinctOf<T>(keys: seq<Key>, rows: seq<EngineRow<T>>, d: nat) {
    && Distinct(keys)
    && (forall i :: 0 <= i < |rows| ==> d < |rows[i].keys| && rows[i].keys[d] in keys)
    && (forall k :: k in keys ==> Occurs(k, rows, d))
  }

  ghost predicate AllDistinctOf<T>(distinct: seq<seq<Key>>, rows: seq<EngineRow<T>>) {
    forall d :: 0 <= d < |distinct| ==> IsDistinctOf(distinct[d], rows, d)
  }

  /** Cells seen so far with those of one more batch. */
  method Merge<T>(keys: seq<Key>, ghost rows: seq<EngineRow<T>>, batch: EngineBatch<T>, d: nat)
    returns (merged: seq<Key>)
    requires IsDistinctOf(keys, rows, d) && forall i :: 0 <= i < |batch| ==> d < |batch[i].keys|
    ensures IsDistinctOf(merged, rows + batch, d)
  {
    var column := KeysAt(batch, d);
    merged := UniqueOf(keys + UniqueOf(column));
    forall i | 0 <= i < |rows + batch| ensures d < |(rows + batch)[i].keys| && (rows + batch)[i].keys[d] in merged {
      if i >= |rows| { assert column[i - |rows|] == batch[i - |rows|].keys[d]; }
    }
    forall k | k in merged ensures Occurs(k, rows + batch, d) {
      if k in keys {
        var i :| 0 <= i < |rows| && d < |rows[i].keys| && rows[i].keys[d] == k;
        assert (rows + batch)[i] == rows[i];
      } else {
        var i :| 0 <= i < |column| && column[i] == k;
        assert (rows + batch)[|rows| + i] == batch[i];
      }
    }
  }

  /** One batch merged into every dimension. */
  method MergeBatch<T>(distinct: seq<seq<Key>>, ghost rows: seq<EngineRow<T>>, batch: EngineBatch<T>)
    returns (merged: seq<seq<Key>>)
    requires AllDistinctOf(distinct, rows) && HaveKeys(batch, |distinct|)
    ensures |merged| == |distinct| && AllDistinctOf(merged, rows + batch)
  {
    merged := [];
    for d := 0 to |distinct|
      invariant |merged| == d && AllDistinctOf(merged, rows + batch)
    {
      var vals := Merge(distinct[d], rows, batch, d);
      merged := merged + [vals];
    }
  }

  method MergeAll<T>(dims: nat, batches: seq<EngineBatch<T>>) returns (distinct: seq<seq<Key>>)
    requires forall b :: 0 <= b < |batches| ==> HaveKeys(batches[b], dims)
    ensures |distinct| == dims && AllDistinctOf(distinct, Flatten(batches))
  {
    distinct := seq(dims, _ => []);
    for b := 0 to |batches|
      invariant |distinct| == dims && AllDistinctOf(distinct, Flatten(batches[..b]))
    {
      distinct := MergeBatch(distinct, Flatten(batches[..b]), batches[b]);
      assert batches[..b + 1][..b] == batches[..b];
    }
    assert batches[..|batches|] == batches;
  }

  /** `np.sort`. */
  function SortedValues(vals: seq<Coord>): seq<Coord> {
    Gather(vals, Argsort(vals, |vals|))
  }

  /** Sorting neither adds nor drops a value, and keeps each as often as it was. */
  lemma SortedValuesSame(vals: seq<Coord>)
    ensures Sorted(SortedValues(vals)) && forall v :: v in SortedValues(vals) <==> v in vals
    ensures Distinct(SortedValues(vals)) <==> Distinct(vals)
  {
    var order, sorted := Argsort(vals, |vals|), SortedValues(vals);
    ArgsortDistinct(vals, |vals|);
    forall i | 0 <= i < |vals| ensures exists k :: 0 <= k < |order| && order[k] == i && sorted[k] == vals[i] {
      assert i in order;
      var k :| 0 <= k < |order| && order[k] == i;
      assert sorted[k] == vals[i];
    }
    if Distinct(vals) {
      forall a, b | 0 <= a < b < |order| ensures sorted[a] != sorted[b] {
        assert order[a] != order[b];
      }
    } else {
      var i, j :| 0 <= i < j < |vals| && vals[i] == vals[j];
      var a :| 0 <= a < |order| && order[a] == i && sorted[a] == vals[i];
      var b :| 0 <= b < |order| && order[b] == j && sorted[b] == vals[j];
      assert a != b;
    }
  }

  /** Converted to NumPy, distinct cells stay distinct unless NULL and NaN are both among them. */
  lemma MarkersMerge(keys: seq<Key>)
    requires Distinct(keys)
    ensures Distinct(CoordsOf(keys)) <==> !(Missing in keys && Known(NaN) in keys)
  {
    if Missing in keys && Known(NaN) in keys {
      var i :| 0 <= i < |keys| && keys[i] == Missing;
      var j :| 0 <= j < |keys| && keys[j] == Known(NaN);
      assert CoordsOf(keys)[i] == CoordsOf(keys)[j] && i != j;
    }
  }

  lemma {:induction false} InsertDistinct(vals: seq<Coord>, order: seq<nat>, i: nat)
    requires i < |vals| && (forall k :: 0 <= k < |order| ==> order[k] < |vals|) && Distinct(order) && i !in order
    ensures Distinct(Insert(vals, order, i))
    decreases |order|
  {
    if order != [] && Before(vals[i], vals[order[|order| - 1]]) {
      InsertDistinct(vals, order[..|order| - 1], i);
      var r := Insert(vals, order[..|order| - 1], i);
      assert order[|order| - 1] !in r;
    }
  }

  lemma {:induction false} ArgsortDistinct(vals: seq<Coord>, n: nat)
    requires n <= |vals|
    ensures Distinct(Argsort(vals, n)) && forall k :: k in Argsort(vals, n) ==> k < n
  {
    if n > 0 {
      ArgsortDistinct(vals, n - 1);
      InsertDistinct(vals, Argsort(vals, n - 1), n - 1);
    }
  }

  /** Both a NULL and a NaN occur on dimension `d`. */
  ghost predicate MixesMarkers<T>(rows: seq<EngineRow<T>>, d: nat) {
    Occurs(Missing, rows, d) && Occurs(Known(NaN), rows, d)
  }

  /** The sorted axis of dimension `d`: exactly the values its cells convert to, each once unless markers mix. */
  ghost predicate IsAxisOf<T>(axis: seq<Coord>, rows: seq<EngineRow<T>>, d: nat) {
    && Sorted(axis)
    && (forall i :: 0 <= i < |rows| ==> d < |rows[i].keys| && rows[i].keys[d].ToNumpy() in axis)
    && (forall v :: v in axis ==> Occurs(Known(v), rows, d) || (v == NaN && Occurs(Missing, rows, d)))
    && (Distinct(axis) <==> !MixesMarkers(rows, d))
  }

  ghost predicate AllAxesOf<T>(axes: seq<seq<Coord>>, rows: seq<EngineRow<T>>) {
    forall d :: 0 <= d < |axes| ==> IsAxisOf(axes[d], rows, d)
  }

  lemma SortedAxis<T>(keys: seq<Key>, rows: seq<EngineRow<T>>, d: nat)
    requires IsDistinctOf(keys, rows, d)
    ensures IsAxisOf(SortedValues(CoordsOf(keys)), rows, d)
  {
    var coords := CoordsOf(keys);
    SortedValuesSame(coords);
    MarkersMerge(keys);
    forall i | 0 <= i < |rows| ensures rows[i].keys[d].ToNumpy() in coords {
      var k :| 0 <= k < |keys| && keys[k] == rows[i].keys[d];
      assert coords[k] == rows[i].keys[d].ToNumpy();
    }
    forall v | v in coords ensures Occurs(Known(v), rows, d) || (v == NaN && Occurs(Missing, rows, d)) {
      var k :| 0 <= k < |coords| && coords[k] == v;
      assert keys[k] in keys;
    }
    forall k | Occurs(k, rows, d) ensures k in keys {
      var i :| 0 <= i < |rows| && d < |rows[i].keys| && rows[i].keys[d] == k;
    }
  }

  method SortAll<T>(distinct: seq<seq<Key>>, ghost rows: seq<EngineRow<T>>) returns (sorted: seq<seq<Coord>>)
    requires AllDistinctOf(distinct, rows)
    ensures |sorted| == |distinct| && AllAxesOf(sorted, rows)
  {
    sorted := [];
    for d := 0 to |distinct|
      invariant |sorted| == d && AllAxesOf(sorted, rows)
    {
      SortedAxis(distinct[d], rows, d);
      sorted := sorted + [SortedValues(CoordsOf(distinct[d]))];
    }
  }

  /** What a pass gives: the whole result, or the sorted coordinates of each dimension. */
  datatype Found<T> = Whole(batches: seq<EngineBatch<T>>) | Coordinates(axes: seq<seq<Coord>>)

  /** Reads the stream once, keeping batches while they fit the budget and only coordinates from then on. */
  method ReadOrDiscover<T>(stream: seq<Streamed<T>>, dims: nat) returns (found: Found<T>)
    requires forall b :: 0 <= b < |stream| ==> HaveKeys(stream[b].batch, dims)
    ensures found.Whole? <==> TotalBytes(stream) <= 0x400_0000
    ensures found.Whole? ==> found.batches == Batches(stream)
    ensures found.Coordinates? ==>
              |found.axes| == dims && AllAxesOf(found.axes, Flatten(Batches(stream)))
  {
    var batches: seq<EngineBatch<T>> := [];
    var total: nat := 0;
    var distinct: Option<seq<seq<Key>>> := None;
    for b := 0 to |stream|
      invariant distinct.None? ==> batches == Batches(stream[..b]) && total == TotalBytes(stream[..b]) <= ONE_PASS_BYTES
      invariant distinct.Some? ==>
                  && TotalBytes(stream) > ONE_PASS_BYTES
                  && |distinct.value| == dims && AllDistinctOf(distinct.value, Flatten(Batches(stream[..b])))
    {
      BatchesSnoc(stream, b);
      if distinct.None? {
        total := total + stream[b].bytes;
        batches := batches + [stream[b].batch];
        assert batches == Batches(stream[..b + 1]);
        if total > ONE_PASS_BYTES {
          BytesGrow(stream, b + 1);
          var merged := MergeAll(dims, batches);
          distinct, batches := Some(merged), [];
        }
      } else {
        var merged := MergeBatch(distinct.value, Flatten(Batches(stream[..b])), stream[b].batch);
        distinct := Some(merged);
      }
    }
    assert stream[..|stream|] == stream;
    if distinct.None? {
      return Whole(batches);
    }
    var sorted := SortAll(distinct.value, Flatten(Batches(stream)));
    return Coordinates(sorted);
  }

  lemma BatchesSnoc<T>(stream: seq<Streamed<T>>, b: nat)
    requires b < |stream|
    ensures Batches(stream[..b + 1]) == Batches(stream[..b]) + [stream[b].batch]
    ensures Flatten(Batches(stream[..b + 1])) == Flatten(Batches(stream[..b])) + stream[b].batch
    ensures TotalBytes(stream[..b + 1]) == TotalBytes(stream[..b]) + stream[b].bytes
  {
    assert stream[..b + 1][..b] == stream[..b];
    var all := Batches(stream[..b + 1]);
    assert all == Batches(stream[..b]) + [stream[b].batch];
    assert all[..|all| - 1] == Batches(stream[..b]);
  }

  /**
   Axes built from discovered coordinates carry every row of the result, and are what lazy reads
   need if and only if no dimension has both a NULL and a NaN.
   */
  lemma DiscoveredAxesServe<T>(axes: seq<Axis>, coords: seq<seq<Coord>>, rows: seq<EngineRow<T>>)
    requires |axes| == |coords| && HaveKeys(rows, |axes|) && AllAxesOf(coords, rows)
    requires forall d :: 0 <= d < |axes| ==> axes[d].values == coords[d]
    ensures OnAxes(Views(rows), axes)
    ensures DistinctAxes(axes) <==> forall d :: 0 <= d < |axes| ==> !MixesMarkers(rows, d)
  {
    forall i | 0 <= i < |rows| ensures CoordsOn(Views(rows)[i].coords, axes) {
      forall d | 0 <= d < |axes| ensures Views(rows)[i].coords[d] in axes[d].values {
        assert IsAxisOf(coords[d], rows, d);
      }
    }
    forall d | 0 <= d < |axes| ensures Distinct(axes[d].values) <==> !MixesMarkers(rows, d) {
      assert IsAxisOf(coords[d], rows, d);
    }
  }

  /** One such dimension: its axis holds the marker twice. */
  lemma MarkersMix<T>(a: T, b: T)
    ensures var rows := [EngineRow([Missing], a), EngineRow([Known(NaN)], b)];
            HaveKeys(rows, 1) && MixesMarkers(rows, 0)
            && forall axis :: IsAxisOf(axis, rows, 0) ==> !Distinct(axis)
  {
    var rows := [EngineRow([Missing], a), EngineRow([Known(NaN)], b)];
    assert rows[0].keys[0] == Missing && rows[1].keys[0] == Known(NaN);
  }
}
