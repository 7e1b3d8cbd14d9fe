/**
 The forward pivot: a block of a dataset as the rows of a table, in C order. Three ways to build a
 coordinate column, the batches that carry the rows, and how batches are grouped into partitions.
 */
module Pivot {
  import opened ChunkGrids
  import opened Grid
  import opened Wrappers

  // ---------------------------------------------------------------------
  // Coordinate columns
  // ---------------------------------------------------------------------

  /** Row `i` of the column of dimension `k` is the coordinate its cell has along that dimension. */
  function Column<T>(shape: seq<nat>, k: nat, vals: seq<T>): (col: seq<T>)
    requires k < |shape| && |vals| == shape[k]
    ensures |col| == Prod(shape)
    ensures forall i :: 0 <= i < |col| ==> col[i] == vals[Unravel(i, shape)[k]]
  {
    seq(Prod(shape), i requires 0 <= i < Prod(shape) => vals[Unravel(i, shape)[k]])
  }

  /** Number of rows over which the coordinate of dimension `k` stays the same. */
  function Stride(shape: seq<nat>, k: nat): nat
    requires k < |shape|
  {
    Prod(shape[k + 1..])
  }

  /** `np.repeat`: each value `n` times in a row. */
  function Repeat<T>(vals: seq<T>, n: nat): (col: seq<T>)
    ensures |col| == |vals| * n
  {
    seq(|vals| * n, i requires 0 <= i < |vals| * n => (DivBound(i, |vals|, n); vals[i / n]))
  }

  /** `np.tile`: the whole column `m` times over. */
  function Tile<T>(col: seq<T>, m: nat): (tiled: seq<T>)
    ensures |tiled| == m * |col|
  {
    seq(m * |col|, i requires 0 <= i < m * |col| => (DivBound(i, m, |col|); col[i % |col|]))
  }

  /** The whole-partition form: repeat along the inner dimensions, then tile along the outer ones. */
  function RepeatTile<T>(shape: seq<nat>, k: nat, vals: seq<T>): seq<T>
    requires k < |shape| && |vals| == shape[k]
  {
    var col := Repeat(vals, Stride(shape, k));
    var outer := Prod(shape[..k]);
    if outer > 1 then Tile(col, outer) else col
  }

  lemma ProdAround(shape: seq<nat>, k: nat)
    requires k < |shape|
    ensures Prod(shape) == Prod(shape[..k]) * (shape[k] * Stride(shape, k))
  {
    assert shape == shape[..k] + shape[k..];
    ProdConcat(shape[..k], shape[k..]);
    assert shape[k..][1..] == shape[k + 1..];
  }

  lemma DigitOfParts(n: nat, r: nat, s: nat, q: nat)
    requires s > 0 && q > 0 && r < s * q
    ensures ((n * (s * q) + r) / q) % s == r / q
  {
    assert 1 * s * q == s * q;
    DigitOfSum(n, 1, s, q, r);
    DivBound(r, s, q);
    DivModUnique(0, r / q, s);
  }

  lemma Euclid(i: nat, m: nat)
    requires m > 0
    ensures i == (i / m) * m + i % m
  {}

  /** The digit of weight `q` and base `s`, read off after reducing modulo `s * q`. */
  lemma DigitOfRemainder(i: nat, s: nat, q: nat)
    requires s > 0 && q > 0
    ensures s * q > 0 && (i % (s * q)) / q == (i / q) % s
  {
    MulMono(1, s, q);
    Euclid(i, s * q);
    DigitOfParts(i / (s * q), i % (s * q), s, q);
  }

  lemma RepeatTileAt<T>(shape: seq<nat>, k: nat, vals: seq<T>, i: nat)
    requires k < |shape| && |vals| == shape[k] && i < Prod(shape)
    ensures |RepeatTile(shape, k, vals)| == Prod(shape)
    ensures RepeatTile(shape, k, vals)[i] == vals[Unravel(i, shape)[k]]
  {
    ProdAround(shape, k);
    UnravelDigit(i, shape, k);
    var s, q, outer := shape[k], Stride(shape, k), Prod(shape[..k]);
    var col := Repeat(vals, q);
    DigitOfRemainder(i, s, q);
    if outer > 1 {
      DivBound(i, outer, s * q);
      assert Tile(col, outer)[i] == col[i % (s * q)];
    } else {
      assert outer == 1;
      DivModUnique(0, i, s * q);
    }
  }

  /** The value at row `i`: `vals[(i // stride) % size]`. */
  function StridedValue<T>(shape: seq<nat>, k: nat, vals: seq<T>, i: nat): (v: T)
    requires k < |shape| && |vals| == shape[k] && i < Prod(shape)
    ensures v == Column(shape, k, vals)[i]
  {
    UnravelDigit(i, shape, k);
    vals[(i / Stride(shape, k)) % shape[k]]
  }

  /** `np.arange(lo, hi)`. */
  function Arange(lo: nat, hi: nat): (rows: seq<nat>)
    requires lo <= hi
    ensures |rows| == hi - lo && forall i :: 0 <= i < |rows| ==> rows[i] == lo + i
  {
    seq(hi - lo, i requires 0 <= i < hi - lo => lo + i)
  }

  /** The strided form of some rows of the column. */
  function Strided<T>(shape: seq<nat>, k: nat, vals: seq<T>, rows: seq<nat>): (col: seq<T>)
    requires k < |shape| && |vals| == shape[k] && forall i :: 0 <= i < |rows| ==> rows[i] < Prod(shape)
    ensures |col| == |rows| && forall i :: 0 <= i < |rows| ==> col[i] == Column(shape, k, vals)[rows[i]]
  {
    seq(|rows|, i requires 0 <= i < |rows| => StridedValue(shape, k, vals, rows[i]))
  }

  /** The shape with length `n` on one axis and one on every other. */
  function OneAxis(rank: nat, k: nat, n: nat): (shape: seq<nat>)
    requires k < rank
    ensures |shape| == rank
  {
    seq(rank, d => if d == k then n else 1)
  }

  /** Broadcasting reads position zero along the axes of length one. */
  function BroadcastIndex(idx: seq<nat>, source: seq<nat>): (j: seq<nat>)
    requires |idx| == |source|
    ensures |j| == |idx|
  {
    seq(|idx|, d requires 0 <= d < |idx| => if source[d] == 1 then 0 else idx[d])
  }

  /** `np.broadcast_to(vals.reshape(...), shape).ravel()`. */
  function BroadcastRavel<T>(shape: seq<nat>, k: nat, vals: seq<T>): (col: seq<T>)
    requires k < |shape| && |vals| == shape[k]
    ensures |col| == Prod(shape)
  {
    var source := OneAxis(|shape|, k, shape[k]);
    seq(Prod(shape), i requires 0 <= i < Prod(shape) =>
      (OneAxisRavel(|shape|, k, shape[k], BroadcastIndex(Unravel(i, shape), source));
       vals[Ravel(BroadcastIndex(Unravel(i, shape), source), source)]))
  }

  lemma {:induction false} OnesRavel(shape: seq<nat>, idx: seq<nat>)
    requires InGrid(idx, shape) && forall d :: 0 <= d < |shape| ==> shape[d] == 1
    ensures Ravel(idx, shape) == 0 && Prod(shape) == 1
  {
    if shape != [] { OnesRavel(shape[1..], idx[1..]); }
  }

  /** In such a shape the flat index is the index along the one axis. */
  lemma {:induction false} OneAxisRavel(rank: nat, k: nat, n: nat, idx: seq<nat>)
    requires k < rank && |idx| == rank && idx[k] < n && forall d :: 0 <= d < rank && d != k ==> idx[d] == 0
    ensures InGrid(idx, OneAxis(rank, k, n)) && Ravel(idx, OneAxis(rank, k, n)) == idx[k]
  {
    var shape := OneAxis(rank, k, n);
    if k == 0 {
      OnesRavel(shape[1..], idx[1..]);
    } else {
      OneAxisRavel(rank - 1, k - 1, n, idx[1..]);
      assert shape[1..] == OneAxis(rank - 1, k - 1, n);
    }
  }

  lemma BroadcastAt<T>(shape: seq<nat>, k: nat, vals: seq<T>, i: nat)
    requires k < |shape| && |vals| == shape[k] && i < Prod(shape)
    ensures BroadcastRavel(shape, k, vals)[i] == vals[Unravel(i, shape)[k]]
  {
    var source := OneAxis(|shape|, k, shape[k]);
    OneAxisRavel(|shape|, k, shape[k], BroadcastIndex(Unravel(i, shape), source));
  }

  /** All forms of a coordinate column are the same column, for every shape and dimension. */
  lemma FormsAgree<T>(shape: seq<nat>, k: nat, vals: seq<T>)
    requires k < |shape| && |vals| == shape[k] && Prod(shape) > 0
    ensures RepeatTile(shape, k, vals) == Column(shape, k, vals)
    ensures Strided(shape, k, vals, Arange(0, Prod(shape))) == Column(shape, k, vals)
    ensures BroadcastRavel(shape, k, vals) == Column(shape, k, vals)
  {
    RepeatTileAt(shape, k, vals, 0);
    forall i | 0 <= i < Prod(shape)
      ensures RepeatTile(shape, k, vals)[i] == Column(shape, k, vals)[i] == BroadcastRavel(shape, k, vals)[i]
    {
      RepeatTileAt(shape, k, vals, i);
      BroadcastAt(shape, k, vals, i);
    }
  }

  // ---------------------------------------------------------------------
  // Batches
  // ---------------------------------------------------------------------

  /** Where a column of the table comes from: a dimension's coordinates, or a variable flattened in C order. */
  datatype Field<T> = Coord(axis: nat, vals: seq<T>) | Data(flat: seq<T>)

  predicate Fits<T>(field: Field<T>, shape: seq<nat>) {
    match field
    case Coord(axis, vals) => axis < |shape| && |vals| == shape[axis]
    case Data(flat) => |flat| == Prod(shape)
  }

  predicate AllFit<T>(fields: seq<Field<T>>, shape: seq<nat>) {
    forall f :: 0 <= f < |fields| ==> Fits(fields[f], shape)
  }

  /** The rows of the table, column by column: each cell of the grid once, in C order. */
  function FieldColumn<T>(field: Field<T>, shape: seq<nat>): (col: seq<T>)
    requires Fits(field, shape)
    ensures |col| == Prod(shape)
  {
    match field
    case Coord(axis, vals) => Column(shape, axis, vals)
    case Data(flat) => flat
  }

  function Columns<T>(fields: seq<Field<T>>, shape: seq<nat>): (columns: seq<seq<T>>)
    requires AllFit(fields, shape)
    ensures |columns| == |fields| && Aligned(columns, Prod(shape))
    ensures forall f :: 0 <= f < |fields| ==> columns[f] == FieldColumn(fields[f], shape)
  {
    seq(|fields|, f requires 0 <= f < |fields| => FieldColumn(fields[f], shape))
  }

  type Batch<T> = seq<seq<T>>

  predicate Aligned<T>(columns: seq<seq<T>>, n: nat) {
    forall f :: 0 <= f < |columns| ==> |columns[f]| == n
  }

  /** Rows `lo..hi` of the columns. */
  function Rows<T>(columns: seq<seq<T>>, total: nat, lo: nat, hi: nat): (batch: Batch<T>)
    requires Aligned(columns, total) && lo <= hi <= total
    ensures |batch| == |columns| && Aligned(batch, hi - lo)
    ensures forall f :: 0 <= f < |batch| ==> batch[f] == columns[f][lo..hi]
  {
    seq(|columns|, f requires 0 <= f < |columns| => columns[f][lo..hi])
  }

  /** The batches hold the first `n` rows in order, all of them `size` rows but the last, which may be shorter. */
  ghost predicate Carries<T>(batches: seq<Batch<T>>, columns: seq<seq<T>>, total: nat, n: nat, size: nat)
    requires Aligned(columns, total) && n <= total
    decreases |batches|
  {
    if batches == [] then n == 0
    else
      var last := |batches| - 1;
      && last * size < n <= last * size + size
      && batches[last] == Rows(columns, total, last * size, n)
      && Carries(batches[..last], columns, total, last * size, size)
  }

  lemma CarriesSnoc<T>(batches: seq<Batch<T>>, columns: seq<seq<T>>, total: nat, size: nat, hi: nat)
    requires Aligned(columns, total) && |batches| * size < hi <= total && hi <= |batches| * size + size
    requires Carries(batches, columns, total, |batches| * size, size)
    ensures Carries(batches + [Rows(columns, total, |batches| * size, hi)], columns, total, hi, size)
  {
    var more := batches + [Rows(columns, total, |batches| * size, hi)];
    assert more[..|batches|] == batches;
  }

  const FULL_PIVOT_MAX_ROWS: nat := 8_388_608

  /** The whole column of a field, built at once. */
  function FullArray<T>(field: Field<T>, shape: seq<nat>): (col: seq<T>)
    requires Fits(field, shape) && Prod(shape) > 0
    ensures col == FieldColumn(field, shape)
  {
    match field
    case Coord(axis, vals) => FormsAgree(shape, axis, vals); RepeatTile(shape, axis, vals)
    case Data(flat) => flat
  }

  lemma StridedSlice<T>(shape: seq<nat>, k: nat, vals: seq<T>, lo: nat, hi: nat)
    requires k < |shape| && |vals| == shape[k] && lo <= hi <= Prod(shape)
    ensures Strided(shape, k, vals, Arange(lo, hi)) == Column(shape, k, vals)[lo..hi]
  {
    SliceAt(Column(shape, k, vals), Strided(shape, k, vals, Arange(lo, hi)), Arange(lo, hi), lo, hi);
  }

  lemma SliceAt<T>(column: seq<T>, part: seq<T>, rows: seq<nat>, lo: nat, hi: nat)
    requires lo <= hi <= |column| && |part| == |rows| == hi - lo
    requires forall i :: 0 <= i < |rows| ==> rows[i] == lo + i
    requires forall i :: 0 <= i < |rows| ==> rows[i] < |column| && part[i] == column[rows[i]]
    ensures part == column[lo..hi]
  {}

  /** Some rows of the column of a field, by index arithmetic. */
  function StridedArray<T>(field: Field<T>, shape: seq<nat>, lo: nat, hi: nat): (col: seq<T>)
    requires Fits(field, shape) && lo <= hi <= Prod(shape)
    ensures col == FieldColumn(field, shape)[lo..hi]
  {
    match field
    case Coord(axis, vals) => StridedSlice(shape, axis, vals, lo, hi); Strided(shape, axis, vals, Arange(lo, hi))
    case Data(flat) => flat[lo..hi]
  }

  /** The whole column of a field, by broadcasting. */
  function BroadcastArray<T>(field: Field<T>, shape: seq<nat>): (col: seq<T>)
    requires Fits(field, shape)
    ensures col == FieldColumn(field, shape)
  {
    match field
    case Coord(axis, vals) => BroadcastIsColumn(shape, axis, vals); BroadcastRavel(shape, axis, vals)
    case Data(flat) => flat
  }

  lemma BroadcastIsColumn<T>(shape: seq<nat>, k: nat, vals: seq<T>)
    requires k < |shape| && |vals| == shape[k]
    ensures BroadcastRavel(shape, k, vals) == Column(shape, k, vals)
  {
    forall i | 0 <= i < Prod(shape) ensures BroadcastRavel(shape, k, vals)[i] == Column(shape, k, vals)[i] {
      BroadcastAt(shape, k, vals, i);
    }
  }

  /** A partition as one record batch: the same columns the smaller batches add up to. */
  function DatasetToRecordBatch<T>(fields: seq<Field<T>>, shape: seq<nat>): (batch: Batch<T>)
    requires AllFit(fields, shape)
    ensures batch == Columns(fields, shape)
  {
    seq(|fields|, f requires 0 <= f < |fields| => BroadcastArray(fields[f], shape))
  }

  /**
   Record batches of at most `size` rows, by the whole-partition form when the partition is small
   and by index arithmetic otherwise. Either way they carry every row of the table once, in order.
   */
  method IterRecordBatches<T>(shape: seq<nat>, fields: seq<Field<T>>, size: nat) returns (batches: seq<Batch<T>>)
    requires size > 0 && AllFit(fields, shape)
    ensures Carries(batches, Columns(fields, shape), Prod(shape), Prod(shape), size)
  {
    var total := Prod(shape);
    ghost var columns := Columns(fields, shape);
    batches := [];
    if 0 < total <= FULL_PIVOT_MAX_ROWS {
      var full := seq(|fields|, f requires 0 <= f < |fields| => FullArray(fields[f], shape));
      assert full == columns;
      batches := SliceAll(full, total, size);
      return;
    }
    var start := 0;
    while start < total
      invariant start == |batches| * size
      invariant Carries(batches, columns, total, Smaller(start, total), size)
      decreases total - start
    {
      var end := Smaller(start + size, total);
      var batch := seq(|fields|, f requires 0 <= f < |fields| => StridedArray(fields[f], shape, start, end));
      assert batch == Rows(columns, total, start, end);
      CarriesSnoc(batches, columns, total, size, end);
      MulSucc(|batches|, size);
      batches := batches + [batch];
      start := start + size;
    }
  }

  /** Zero-copy slices of full columns; a slice past the end is clipped. */
  method SliceAll<T>(columns: seq<seq<T>>, total: nat, size: nat) returns (batches: seq<Batch<T>>)
    requires size > 0 && Aligned(columns, total)
    ensures Carries(batches, columns, total, total, size)
  {
    batches := [];
    var start := 0;
    while start < total
      invariant start == |batches| * size
      invariant Carries(batches, columns, total, Smaller(start, total), size)
      decreases total - start
    {
      CarriesSnoc(batches, columns, total, size, Smaller(start + size, total));
      MulSucc(|batches|, size);
      batches := batches + [Rows(columns, total, start, Smaller(start + size, total))];
      start := start + size;
    }
  }

  /** A column glued together again from the batches. */
  function Glued<T>(batches: seq<Batch<T>>, f: nat): seq<T>
    requires forall b :: 0 <= b < |batches| ==> f < |batches[b]|
  {
    if batches == [] then [] else Glued(batches[..|batches| - 1], f) + batches[|batches| - 1][f]
  }

  /** No batch is empty or has more than `size` rows, and there are as few batches as that allows. */
  lemma {:induction false} CarriedSizes<T>(batches: seq<Batch<T>>, columns: seq<seq<T>>, total: nat, n: nat, size: nat)
    requires Aligned(columns, total) && n <= total && Carries(batches, columns, total, n, size)
    ensures forall b :: 0 <= b < |batches| ==>
              |batches[b]| == |columns| && forall f :: 0 <= f < |columns| ==> 0 < |batches[b][f]| <= size
    ensures n <= |batches| * size
    ensures batches != [] ==> (|batches| - 1) * size < n
  {
    if batches != [] {
      var last := |batches| - 1;
      CarriedSizes(batches[..last], columns, total, last * size, size);
      MulSucc(last, size);
      assert batches == batches[..last] + [batches[last]];
    }
  }

  /** The batches concatenate to the columns: every row once, in order. */
  lemma {:induction false} CarriedRows<T>(batches: seq<Batch<T>>, columns: seq<seq<T>>, total: nat, n: nat, size: nat,
                                          f: nat)
    requires Aligned(columns, total) && n <= total && Carries(batches, columns, total, n, size) && f < |columns|
    ensures forall b :: 0 <= b < |batches| ==> f < |batches[b]|
    ensures Glued(batches, f) == columns[f][..n]
  {
    if batches != [] {
      var last := |batches| - 1;
      var lo := last * size;
      CarriedRows(batches[..last], columns, total, lo, size, f);
      assert batches == batches[..last] + [batches[last]];
      assert columns[f][..n] == columns[f][..lo] + columns[f][lo..n];
    }
  }

  // ---------------------------------------------------------------------
  // In-memory partitions
  // ---------------------------------------------------------------------

  /** Groups of `n` items each, the last one possibly shorter, holding the items in order. */
  ghost predicate GroupedBy<T>(groups: seq<seq<T>>, items: seq<T>, n: nat) {
    && Flatten(groups) == items
    && (forall g :: 0 <= g < |groups| ==> 0 < |groups[g]| <= n)
    && (groups != [] ==> (|groups| - 1) * n < |items|)
  }

  lemma GroupSnoc<T>(groups: seq<seq<T>>, items: seq<T>, n: nat, group: seq<T>)
    requires GroupedBy(groups, items, n) && |items| == |groups| * n && 0 < |group| <= n
    ensures GroupedBy(groups + [group], items + group, n)
  {
    assert (groups + [group])[..|groups|] == groups;
  }

  method Batched<T>(items: seq<T>, n: nat) returns (groups: seq<seq<T>>)
    requires n > 0
    ensures GroupedBy(groups, items, n)
  {
    groups := [];
    var taken := 0;
    while taken < |items|
      invariant taken <= |items| && GroupedBy(groups, items[..taken], n)
      invariant taken < |items| ==> taken == |groups| * n
    {
      var next := Smaller(taken + n, |items|);
      var batch := items[taken..next];
      assert items[..next] == items[..taken] + batch;
      GroupSnoc(groups, items[..taken], n, batch);
      MulSucc(|groups|, n);
      groups := groups + [batch];
      taken := next;
    }
    assert items[..taken] == items;
  }

  /** `-(-a // b)`: division rounding up. */
  function CeilDiv(a: nat, b: nat): (q: nat)
    requires b > 0
    ensures a <= q * b && (a > 0 ==> q > 0 && (q - 1) * b < a)
  {
    var minus: int := 0 - a;
    var q: int := 0 - minus / b;
    assert minus == b * (minus / b) + minus % b;
    CeilFacts(a, b, q);
    q
  }

  lemma CeilFacts(a: nat, b: nat, q: int)
    requires b > 0 && 0 <= q * b - a < b
    ensures q >= 0 && (a > 0 ==> q > 0) && (q - 1) * b < a
  {
    if q < 0 {
      assert (-q) * b >= b by { MulMono(1, -q, b); }
      assert false;
    }
  }

  /** A quotient rounded up is the least one that covers. */
  lemma CeilLeast(a: nat, b: nat, n: nat)
    requires b > 0 && a <= n * b
    ensures CeilDiv(a, b) <= n
  {
    var q := CeilDiv(a, b);
    if q > n { MulMono(n, q - 1, b); }
  }

  lemma MulOrder(a: nat, b: nat, c: nat)
    ensures a * b * c == b * (a * c)
    ensures a * b == b * a
  {}

  /** The two ceiling divisions: batches stay within the batch size, and the partitions within the count. */
  lemma PartitionArithmetic(rows: nat, count: nat, batchSize: nat)
    requires rows > 0 && count > 0 && batchSize > 0
    ensures count * batchSize > 0
    ensures var per := CeilDiv(rows, count * batchSize);
            && count * per > 0
            && CeilDiv(rows, count * per) <= batchSize
            && rows <= CeilDiv(rows, count * per) * (count * per)
  {
    MulMono(1, count, batchSize);
    var per := CeilDiv(rows, count * batchSize);
    MulMono(1, count, per);
    assert rows <= per * (count * batchSize);
    Rearrange(per, count, batchSize);
    CeilLeast(rows, count * per, batchSize);
  }

  /**
   `per` is the least number of batches a partition needs when no batch is above the batch size, and
   `size` the least that `count` such partitions need to hold the rows.
   */
  ghost predicate EvenlyCut(rows: nat, count: nat, batchSize: nat, per: nat, size: nat) {
    && per > 0 && 0 < size <= batchSize
    && (per - 1) * (count * batchSize) < rows <= per * (count * batchSize)
    && (size - 1) * (count * per) < rows <= size * (count * per)
  }

  /** So no partition may hold more than an even share of the rows and a row for each of its batches. */
  lemma EvenShare(rows: nat, count: nat, batchSize: nat, per: nat, size: nat, held: nat)
    requires EvenlyCut(rows, count, batchSize, per, size) && held <= per * size
    ensures count * held < rows + count * per
  {
    MulMono(held, per * size, count);
    ShareArithmetic(count, per, size);
  }

  lemma ShareArithmetic(count: nat, per: nat, size: int)
    ensures (per * size) * count == (size - 1) * (count * per) + count * per
  {
    assert (per * size) * count == size * (count * per);
  }

  lemma Rearrange(a: nat, b: nat, c: nat)
    ensures a * (b * c) == c * (b * a)
  {}

  /**
   The rows of an in-memory dataset cut into batches and the batches into partitions, as many as
   it has chunks but no more than there are processors; nothing when there are no rows.
   */
  method InMemoryPartitions<T>(shape: seq<nat>, fields: seq<Field<T>>, chunks: nat, processors: nat, batchSize: nat)
    returns (partitions: Option<seq<seq<Batch<T>>>>)
    requires chunks > 0 && processors > 0 && batchSize > 0 && AllFit(fields, shape)
    ensures partitions.Some? <==> Prod(shape) > 0
    ensures partitions.Some? ==>
              && |partitions.value| <= Smaller(chunks, processors)
              && exists per, size ::
                  && EvenlyCut(Prod(shape), Smaller(chunks, processors), batchSize, per, size)
                  && GroupedBy(partitions.value, Flatten(partitions.value), per)
                  && Carries(Flatten(partitions.value), Columns(fields, shape), Prod(shape), Prod(shape), size)
  {
    var rows := Prod(shape);
    if rows == 0 {
      return None;
    }
    var count := Smaller(chunks, processors);
    PartitionArithmetic(rows, count, batchSize);
    var per := CeilDiv(rows, count * batchSize);
    var size := CeilDiv(rows, count * per);
    var batches := IterRecordBatches(shape, fields, size);
    CarriedSizes(batches, Columns(fields, shape), rows, rows, size);
    var groups := Batched(batches, per);
    if |groups| > count {
      TooManyGroups(rows, size, count, per, |batches|, |groups|);
      assert false;
    }
    assert EvenlyCut(rows, count, batchSize, per, size);
    return Some(groups);
  }

  lemma TooManyGroups(rows: nat, size: nat, count: nat, per: nat, batches: nat, groups: nat)
    requires rows > 0 && rows <= size * (count * per) && batches > 0
    requires (batches - 1) * size < rows && groups > 0 && (groups - 1) * per < batches
    ensures groups <= count
  {
    if groups > count {
      MulMono(count, groups - 1, per);
      MulMono(count * per, batches - 1, size);
      MulOrder(count * per, size, 1);
    }
  }
}
