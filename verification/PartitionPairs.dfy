/**
 The metadata registered with each partition of a dataset: coordinate bounds per dimension, taken
 once for the dimensions that are not cut, and row counts. It is exactly what pruning and scan
 statistics rely on.
 */
module PartitionPairs {
  import opened Casts
  import opened ChunkGrids
  import opened DatasetBlocks
  import opened Grid
  import opened Pruning
  import opened Scalars
  import opened ScanStatistics
  import opened Wrappers

  // ---------------------------------------------------------------------
  // Bounds of a coordinate slice
  // ---------------------------------------------------------------------

  /** Element types that have a bound; arrays of any other type are registered without one. */
  predicate HasBounds(t: DataType) {
    match t
    case Utf8(layout) => layout == Plain
    case Binary(layout) => layout == Plain
    case FixedSizeBinary(_) => false
    case Interval(_) => false
    case OtherType(_, _) => false
    case _ => true
  }

  /** A coordinate array: its column type, and its values with `None` for NaT. */
  datatype CoordArray = CoordArray(dtype: DataType, values: seq<Option<ScalarBound>>) {

    ghost predicate Valid() {
      forall i :: 0 <= i < |values| && values[i].Some? ==> HasType(dtype, BoundValue(values[i].value))
    }
  }

  /** NaT and NaN make a slice unordered. */
  predicate IsNull(v: Option<ScalarBound>) {
    v.None? || (v.value.FloatBound? && v.value.f.NotANumber?)
  }

  predicate HasNull(values: seq<Option<ScalarBound>>) {
    exists i :: 0 <= i < |values| && IsNull(values[i])
  }

  /** The values that are missing or do not compare, even with themselves, are the nulls. */
  lemma NullsDoNotCompare(values: seq<Option<ScalarBound>>)
    ensures HasNull(values) <==>
              (exists i :: 0 <= i < |values| &&
                 (values[i].None? || !SameKind(BoundValue(values[i].value), BoundValue(values[i].value))))
  {
    forall i | 0 <= i < |values|
      ensures IsNull(values[i]) <==>
              values[i].None? || !SameKind(BoundValue(values[i].value), BoundValue(values[i].value))
    {}
  }

  lemma SameTypeOrdered(t: DataType, a: ScalarBound, b: ScalarBound)
    requires HasBounds(t) && HasType(t, BoundValue(a)) && HasType(t, BoundValue(b))
    requires !IsNull(Some(a)) && !IsNull(Some(b))
    ensures Order(BoundValue(a), BoundValue(b)).Some?
  {}

  ghost predicate Orderable(t: DataType, values: seq<Option<ScalarBound>>) {
    && HasBounds(t) && values != [] && !HasNull(values)
    && forall i :: 0 <= i < |values| ==> values[i].Some? && HasType(t, BoundValue(values[i].value))
  }

  /** The smallest or largest value, by one pass over the slice. */
  method Extreme(ghost t: DataType, values: seq<Option<ScalarBound>>, least: bool) returns (m: ScalarBound)
    requires Orderable(t, values)
    ensures Some(m) in values
    ensures forall i :: 0 <= i < |values| ==>
              if least then AtMost(BoundValue(m), BoundValue(values[i].value))
              else AtMost(BoundValue(values[i].value), BoundValue(m))
  {
    m := values[0].value;
    SameTypeOrdered(t, m, m);
    OrderEqual(BoundValue(m), BoundValue(m));
    for k := 1 to |values|
      invariant Some(m) in values
      invariant forall i :: 0 <= i < k ==>
                  if least then AtMost(BoundValue(m), BoundValue(values[i].value))
                  else AtMost(BoundValue(values[i].value), BoundValue(m))
    {
      m := FoldOne(t, values, k, m, least);
    }
  }

  /** One step of the pass. */
  method FoldOne(ghost t: DataType, values: seq<Option<ScalarBound>>, k: nat, m: ScalarBound, least: bool)
    returns (r: ScalarBound)
    requires Orderable(t, values) && k < |values| && Some(m) in values
    requires forall i :: 0 <= i < k ==>
               if least then AtMost(BoundValue(m), BoundValue(values[i].value))
               else AtMost(BoundValue(values[i].value), BoundValue(m))
    ensures Some(r) in values
    ensures forall i :: 0 <= i < k + 1 ==>
              if least then AtMost(BoundValue(r), BoundValue(values[i].value))
              else AtMost(BoundValue(values[i].value), BoundValue(r))
  {
    SameTypeOrdered(t, m, values[k].value);
    var folded := FoldBound(m, values[k].value, least);
    r := folded.value;
    forall i | 0 <= i < k
      ensures if least then AtMost(BoundValue(r), BoundValue(values[i].value))
              else AtMost(BoundValue(values[i].value), BoundValue(r))
    {
      if least {
        OrderTransitive(BoundValue(r), BoundValue(m), BoundValue(values[i].value));
      } else {
        OrderTransitive(BoundValue(values[i].value), BoundValue(m), BoundValue(r));
      }
    }
  }

  /** The range is that of the values: each lies in it, and both ends are among them. */
  ghost predicate IsRangeOf(range: DimensionRange, values: seq<Option<ScalarBound>>) {
    && (forall i :: 0 <= i < |values| ==> values[i].Some? && Pruning.InRange(range, BoundValue(values[i].value)))
    && Some(range.min) in values && Some(range.max) in values
  }

  /** A bound exists for a nonempty slice of a bounded type, all of whose values are there and compare. */
  ghost predicate Bounded(t: DataType, values: seq<Option<ScalarBound>>) {
    && HasBounds(t) && values != []
    && forall i :: 0 <= i < |values| ==>
         values[i].Some? && SameKind(BoundValue(values[i].value), BoundValue(values[i].value))
  }

  method CoordinatePartitionBound(a: CoordArray) returns (range: Option<DimensionRange>)
    requires a.Valid()
    ensures range.Some? <==> Bounded(a.dtype, a.values)
    ensures range.Some? ==> IsRangeOf(range.value, a.values) && NothingOutside(range.value, a.values)
  {
    NullsDoNotCompare(a.values);
    if a.values == [] || !HasBounds(a.dtype) || HasNull(a.values) {
      return None;
    }
    assert Orderable(a.dtype, a.values) by {
      forall i | 0 <= i < |a.values| ensures a.values[i].Some? {
        assert !IsNull(a.values[i]);
      }
    }
    var min := Extreme(a.dtype, a.values, true);
    var max := Extreme(a.dtype, a.values, false);
    range := Some(DimensionRange(min, max));
    RangeMeaning(range.value, a.values);
  }

  /** No value of the slice lies below the minimum or above the maximum, in the order of what the values are. */
  ghost predicate NothingOutside(range: DimensionRange, values: seq<Option<ScalarBound>>) {
    forall i :: 0 <= i < |values| ==>
      && values[i].Some?
      && NotBeyond(BoundValue(range.min), BoundValue(values[i].value), true)
      && NotBeyond(BoundValue(range.max), BoundValue(values[i].value), false)
  }

  lemma RangeMeaning(range: DimensionRange, values: seq<Option<ScalarBound>>)
    requires IsRangeOf(range, values)
    ensures NothingOutside(range, values)
  {
    forall i | 0 <= i < |values|
      ensures NotBeyond(BoundValue(range.min), BoundValue(values[i].value), true)
      ensures NotBeyond(BoundValue(range.max), BoundValue(values[i].value), false)
    {
      OrderMeaning(BoundValue(range.min), BoundValue(values[i].value));
      OrderMeaning(BoundValue(values[i].value), BoundValue(range.max));
      KindsSwap(BoundValue(values[i].value), BoundValue(range.max));
    }
  }

  /** In particular a slice of finite floats registers reals that enclose each of them. */
  lemma RealRange(range: DimensionRange, values: seq<Option<ScalarBound>>, i: nat, w: FloatWidth, a: real, r: real,
                  b: real)
    requires IsRangeOf(range, values) && i < |values| && values[i] == Some(FloatBound(w, Finite(r)))
    requires range == DimensionRange(FloatBound(w, Finite(a)), FloatBound(w, Finite(b)))
    ensures a <= r <= b
  {
    RangeMeaning(range, values);
    assert NotBeyond(BoundValue(range.min), BoundValue(values[i].value), true);
    assert NotBeyond(BoundValue(range.max), BoundValue(values[i].value), false);
  }

  /** The bounded types are those some bound is taken from; a time zone makes no difference. */
  lemma BoundedTypes(t: DataType)
    ensures HasBounds(t) <==> exists b :: NativeType(b) == (if t.Timestamp? then Timestamp(t.unit, None) else t)
  {
    if HasBounds(t) {
      var b := AnyBound(t);
      assert NativeType(b) == (if t.Timestamp? then Timestamp(t.unit, None) else t);
    }
  }

  /** Some bound of a type that has them. */
  function AnyBound(t: DataType): ScalarBound
    requires HasBounds(t)
  {
    match t
    case Boolean => BooleanBound(false)
    case Int8 => Int8Bound(0)
    case Int16 => Int16Bound(0)
    case Int32 => Int32Bound(0)
    case Int64 => Int64Bound(0)
    case UInt8 => UInt8Bound(0)
    case UInt16 => UInt16Bound(0)
    case UInt32 => UInt32Bound(0)
    case UInt64 => UInt64Bound(0)
    case Float(w) => FloatBound(w, Finite(0.0))
    case Utf8(_) => Utf8Bound([])
    case Binary(_) => BinaryBound([])
    case Timestamp(unit, _) => TimestampBound(unit, 0)
    case Duration(unit) => DurationBound(unit, 0)
  }

  // ---------------------------------------------------------------------
  // Datasets and block metadata
  // ---------------------------------------------------------------------

  datatype Dimension = Dimension(name: string, coords: CoordArray)

  /** A dataset with its dimensions in order, and the chunk tuples it is cut by. */
  datatype Dataset = Dataset(dims: seq<Dimension>, resolved: seq<seq<nat>>) {

    ghost predicate Valid() {
      && |resolved| == |dims|
      && (forall d :: 0 <= d < |dims| ==> dims[d].coords.Valid() && |dims[d].coords.values| == Total(resolved[d]))
      && (forall d, e :: 0 <= d < e < |dims| ==> dims[d].name != dims[e].name)
    }
  }

  /** The coordinates of one dimension inside a block. */
  function Part(ds: Dataset, d: nat, s: Slice): (a: CoordArray)
    requires d < |ds.dims|
  {
    var values := ds.dims[d].coords.values;
    if s.start <= s.stop <= |values| then CoordArray(ds.dims[d].coords.dtype, values[s.start..s.stop])
    else CoordArray(ds.dims[d].coords.dtype, [])
  }

  lemma PartValid(ds: Dataset, d: nat, s: Slice)
    requires ds.Valid() && d < |ds.dims|
    ensures Part(ds, d, s).Valid()
  {}

  /** Entry of dimension `d` in the metadata of a block: absent without a bound, exact otherwise. */
  ghost predicate Describes(ranges: map<string, DimensionRange>, ds: Dataset, block: Block, d: nat)
    requires d < |ds.dims| && |block| == |ds.dims|
  {
    var a := Part(ds, d, block[d]);
    && (ds.dims[d].name in ranges <==> Bounded(a.dtype, a.values))
    && (ds.dims[d].name in ranges ==> IsRangeOf(ranges[ds.dims[d].name], a.values))
  }

  ghost predicate Named(ranges: map<string, DimensionRange>, ds: Dataset, dims: seq<nat>) {
    forall c :: c in ranges ==> exists k :: 0 <= k < |dims| && dims[k] < |ds.dims| && ds.dims[dims[k]].name == c
  }

  /** Metadata of a block for some of the dimensions, and for no other column. */
  ghost predicate MetadataFor(ranges: map<string, DimensionRange>, ds: Dataset, block: Block, dims: seq<nat>) {
    && |block| == |ds.dims|
    && (forall k :: 0 <= k < |dims| ==> dims[k] < |ds.dims| && Describes(ranges, ds, block, dims[k]))
    && Named(ranges, ds, dims)
  }

  function Extended(ranges: map<string, DimensionRange>, name: string,
                    range: Option<DimensionRange>): map<string, DimensionRange>
  {
    if range.Some? then ranges[name := range.value] else ranges
  }

  lemma NamedSnoc(ranges: map<string, DimensionRange>, ds: Dataset, dims: seq<nat>, d: nat,
                  range: Option<DimensionRange>)
    requires Named(ranges, ds, dims) && d < |ds.dims|
    ensures Named(Extended(ranges, ds.dims[d].name, range), ds, dims + [d])
  {
    var all := dims + [d];
    forall c | c in Extended(ranges, ds.dims[d].name, range)
      ensures exists k :: 0 <= k < |all| && all[k] < |ds.dims| && ds.dims[all[k]].name == c
    {
      if c in ranges {
        var k :| 0 <= k < |dims| && dims[k] < |ds.dims| && ds.dims[dims[k]].name == c;
        assert all[k] == dims[k];
      } else {
        assert all[|dims|] == d;
      }
    }
  }

  lemma NotNamed(ranges: map<string, DimensionRange>, ds: Dataset, dims: seq<nat>, d: nat)
    requires ds.Valid() && Named(ranges, ds, dims) && d < |ds.dims| && d !in dims
    ensures ds.dims[d].name !in ranges
  {
    forall k | 0 <= k < |dims| && dims[k] < |ds.dims| ensures ds.dims[dims[k]].name != ds.dims[d].name {
      assert dims[k] in dims;
    }
  }

  lemma MetadataSnoc(ranges: map<string, DimensionRange>, ds: Dataset, block: Block, dims: seq<nat>, d: nat,
                     range: Option<DimensionRange>)
    requires ds.Valid() && MetadataFor(ranges, ds, block, dims) && d < |ds.dims| && d !in dims
    requires var a := Part(ds, d, block[d]);
             (range.Some? <==> Bounded(a.dtype, a.values)) && (range.Some? ==> IsRangeOf(range.value, a.values))
    ensures MetadataFor(Extended(ranges, ds.dims[d].name, range), ds, block, dims + [d])
  {
    var name := ds.dims[d].name;
    NotNamed(ranges, ds, dims, d);
    NamedSnoc(ranges, ds, dims, d, range);
    var more := Extended(ranges, name, range);
    forall k | 0 <= k < |dims + [d]|
      ensures (dims + [d])[k] < |ds.dims| && Describes(more, ds, block, (dims + [d])[k])
    {
      if k < |dims| {
        assert Describes(ranges, ds, block, dims[k]);
        assert dims[k] in dims && ds.dims[dims[k]].name != name;
      }
    }
  }

  method BlockMetadata(ds: Dataset, block: Block, dims: seq<nat>) returns (ranges: map<string, DimensionRange>)
    requires ds.Valid() && |block| == |ds.dims| && Distinct(dims) && Below(dims, |ds.dims|)
    ensures MetadataFor(ranges, ds, block, dims)
  {
    ranges := map[];
    for k := 0 to |dims|
      invariant MetadataFor(ranges, ds, block, dims[..k])
    {
      var d := dims[k];
      PartValid(ds, d, block[d]);
      var range := CoordinatePartitionBound(Part(ds, d, block[d]));
      MetadataSnoc(ranges, ds, block, dims[..k], d, range);
      assert dims[..k + 1] == dims[..k] + [d];
      ranges := Extended(ranges, ds.dims[d].name, range);
    }
    assert dims[..|dims|] == dims;
  }

  // ---------------------------------------------------------------------
  // Partition pairs
  // ---------------------------------------------------------------------

  predicate Varies(ds: Dataset, d: nat)
    requires d < |ds.resolved|
  {
    |ds.resolved[d]| > 1
  }

  /** The dimensions cut into several chunks, or the others, in order. */
  function DimsWhere(ds: Dataset, varying: bool, n: nat): (dims: seq<nat>)
    requires |ds.resolved| == |ds.dims| && n <= |ds.dims|
    ensures Distinct(dims) && Below(dims, n)
    ensures forall d :: 0 <= d < n ==> (d in dims <==> Varies(ds, d) == varying)
  {
    if n == 0 then []
    else DimsWhere(ds, varying, n - 1) + if Varies(ds, n - 1) == varying then [n - 1] else []
  }

  /** The block of whole dimensions, from which the bounds of the uncut ones are taken. */
  function WholeBlock(ds: Dataset): (block: Block)
    ensures |block| == |ds.dims|
  {
    seq(|ds.dims|, d requires 0 <= d < |ds.dims| => Slice(0, |ds.dims[d].coords.values|))
  }

  /** Metadata of one block for every dimension, and for nothing else. */
  ghost predicate FullMetadata(ranges: map<string, DimensionRange>, ds: Dataset, block: Block) {
    && |block| == |ds.dims|
    && (forall d :: 0 <= d < |ds.dims| ==> Describes(ranges, ds, block, d))
    && KnownNames(ranges, ds)
  }

  lemma DescribesInMerge(ds: Dataset, block: Block, d: nat, fixed: map<string, DimensionRange>,
                         dynamic: map<string, DimensionRange>)
    requires ds.Valid() && d < |ds.dims| && |block| == |ds.dims|
    requires MetadataFor(fixed, ds, WholeBlock(ds), DimsWhere(ds, false, |ds.dims|))
    requires MetadataFor(dynamic, ds, block, DimsWhere(ds, true, |ds.dims|))
    requires !Varies(ds, d) ==> block[d] == WholeBlock(ds)[d]
    ensures Describes(fixed + dynamic, ds, block, d)
  {
    var name := ds.dims[d].name;
    if Varies(ds, d) {
      var dims := DimsWhere(ds, true, |ds.dims|);
      var k :| 0 <= k < |dims| && dims[k] == d;
      assert Describes(dynamic, ds, block, dims[k]);
      NotNamed(fixed, ds, DimsWhere(ds, false, |ds.dims|), d);
    } else {
      var dims := DimsWhere(ds, false, |ds.dims|);
      var k :| 0 <= k < |dims| && dims[k] == d;
      assert Describes(fixed, ds, WholeBlock(ds), dims[k]);
      NotNamed(dynamic, ds, DimsWhere(ds, true, |ds.dims|), d);
    }
  }

  ghost predicate KnownNames(ranges: map<string, DimensionRange>, ds: Dataset) {
    forall c :: c in ranges ==> exists d :: 0 <= d < |ds.dims| && ds.dims[d].name == c
  }

  lemma NamedIsKnown(ranges: map<string, DimensionRange>, ds: Dataset, dims: seq<nat>)
    requires Named(ranges, ds, dims)
    ensures KnownNames(ranges, ds)
  {
    forall c | c in ranges ensures exists d :: 0 <= d < |ds.dims| && ds.dims[d].name == c {
      var k :| 0 <= k < |dims| && dims[k] < |ds.dims| && ds.dims[dims[k]].name == c;
    }
  }

  /** A block that is whole along the uncut dimensions. */
  predicate WholeWhereUncut(ds: Dataset, block: Block)
    requires |ds.resolved| == |ds.dims|
  {
    |block| == |ds.dims| && forall d :: 0 <= d < |ds.dims| && !Varies(ds, d) ==> block[d] == WholeBlock(ds)[d]
  }

  /** The bounds taken once and those of the block make up the full metadata of the block. */
  lemma MergeIsFull(ds: Dataset, block: Block, fixed: map<string, DimensionRange>, dynamic: map<string, DimensionRange>)
    requires ds.Valid() && WholeWhereUncut(ds, block)
    requires MetadataFor(fixed, ds, WholeBlock(ds), DimsWhere(ds, false, |ds.dims|))
    requires MetadataFor(dynamic, ds, block, DimsWhere(ds, true, |ds.dims|))
    ensures FullMetadata(fixed + dynamic, ds, block)
  {
    forall d | 0 <= d < |ds.dims| ensures Describes(fixed + dynamic, ds, block, d) {
      DescribesInMerge(ds, block, d, fixed, dynamic);
    }
    NamedIsKnown(fixed, ds, DimsWhere(ds, false, |ds.dims|));
    NamedIsKnown(dynamic, ds, DimsWhere(ds, true, |ds.dims|));
  }

  lemma WholeSlice(ds: Dataset, b: nat)
    requires ds.Valid() && b < |Blocks(ds.resolved)|
    ensures WholeWhereUncut(ds, Blocks(ds.resolved)[b])
  {
    var c := Unravel(b, Lens(ds.resolved));
    forall d | 0 <= d < |ds.dims| && !Varies(ds, d) ensures Blocks(ds.resolved)[b][d] == WholeBlock(ds)[d] {
      assert c[d] < Lens(ds.resolved)[d] == 1;
      assert Total(ds.resolved[d]) == Bound(ds.resolved[d], 1);
    }
  }

  /** Metadata and row counts of partitions, in the order of their blocks. */
  ghost predicate ArePairs(metas: seq<PartitionMetadata>, ds: Dataset, blocks: seq<Block>, lens: seq<nat>) {
    && |metas| <= |blocks| == |lens|
    && forall b :: 0 <= b < |metas| ==> FullMetadata(metas[b].ranges, ds, blocks[b]) && metas[b].numRows == lens[b]
  }

  lemma PairsSnoc(metas: seq<PartitionMetadata>, ds: Dataset, blocks: seq<Block>, lens: seq<nat>,
                  meta: PartitionMetadata)
    requires ArePairs(metas, ds, blocks, lens) && |metas| < |blocks|
    requires FullMetadata(meta.ranges, ds, blocks[|metas|]) && meta.numRows == lens[|metas|]
    ensures ArePairs(metas + [meta], ds, blocks, lens)
  {}

  method PairsOf(ds: Dataset, blocks: seq<Block>, lens: seq<nat>) returns (metas: seq<PartitionMetadata>)
    requires ds.Valid() && |lens| == |blocks|
    requires forall b :: 0 <= b < |blocks| ==> WholeWhereUncut(ds, blocks[b])
    ensures |metas| == |blocks| && ArePairs(metas, ds, blocks, lens)
  {
    var fixed := BlockMetadata(ds, WholeBlock(ds), DimsWhere(ds, false, |ds.dims|));
    metas := [];
    for b := 0 to |blocks|
      invariant |metas| == b && ArePairs(metas, ds, blocks, lens)
    {
      var dynamic := BlockMetadata(ds, blocks[b], DimsWhere(ds, true, |ds.dims|));
      MergeIsFull(ds, blocks[b], fixed, dynamic);
      PairsSnoc(metas, ds, blocks, lens, PartitionMetadata(fixed + dynamic, lens[b]));
      metas := metas + [PartitionMetadata(fixed + dynamic, lens[b])];
    }
  }

  /** Metadata and row count of every partition of a dataset. */
  method Pairs(ds: Dataset) returns (metas: seq<PartitionMetadata>)
    requires ds.Valid()
    ensures |metas| == |Blocks(ds.resolved)|
    ensures ArePairs(metas, ds, Blocks(ds.resolved), BlockLens(ds.resolved))
  {
    forall b | 0 <= b < |Blocks(ds.resolved)| ensures WholeWhereUncut(ds, Blocks(ds.resolved)[b]) {
      WholeSlice(ds, b);
    }
    metas := PairsOf(ds, Blocks(ds.resolved), BlockLens(ds.resolved));
  }

  // ---------------------------------------------------------------------
  // Exactness
  // ---------------------------------------------------------------------

  /** A row shows the coordinates of its cell; other columns are free. */
  ghost predicate ShowsCell(ds: Dataset, cell: seq<nat>, row: Row) {
    && |cell| == |ds.dims|
    && forall d :: 0 <= d < |ds.dims| ==>
         && cell[d] < |ds.dims[d].coords.values|
         && var v := ds.dims[d].coords.values[cell[d]];
            if v.Some? then ds.dims[d].name in row && row[ds.dims[d].name] == BoundValue(v.value)
            else ds.dims[d].name !in row
  }

  /** The rows of a block: one for each of its cells. */
  ghost predicate RowsOf(ds: Dataset, block: Block, rows: seq<Row>, cells: seq<seq<nat>>) {
    && |rows| == |cells|
    && (forall i :: 0 <= i < |rows| ==> InBlock(cells[i], block) && ShowsCell(ds, cells[i], rows[i]))
    && (forall cell :: InBlock(cell, block) ==> cell in cells)
  }

  ghost predicate Typed(ds: Dataset, schema: Schema) {
    forall d :: 0 <= d < |ds.dims| ==>
      ds.dims[d].name in schema && schema[ds.dims[d].name] == ds.dims[d].coords.dtype
  }

  ghost predicate Inside(ds: Dataset, block: Block) {
    && |block| == |ds.dims|
    && forall d :: 0 <= d < |block| ==> block[d].start < block[d].stop <= |ds.dims[d].coords.values|
  }

  lemma PartAt(ds: Dataset, block: Block, d: nat, p: nat)
    requires Inside(ds, block) && d < |block| && block[d].start <= p < block[d].stop
    ensures var a := Part(ds, d, block[d]);
            p - block[d].start < |a.values| && a.values[p - block[d].start] == ds.dims[d].coords.values[p]
  {}

  lemma RowInBlock(ds: Dataset, schema: Schema, block: Block, meta: PartitionMetadata, cell: seq<nat>, row: Row)
    requires ds.Valid() && Typed(ds, schema) && Inside(ds, block) && FullMetadata(meta.ranges, ds, block)
    requires InBlock(cell, block) && ShowsCell(ds, cell, row)
    ensures RowIn(schema, meta, row)
  {
    forall c | c in meta.ranges
      ensures c in schema && c in row && HasType(schema[c], row[c]) && Pruning.InRange(meta.ranges[c], row[c])
    {
      var d :| 0 <= d < |ds.dims| && ds.dims[d].name == c;
      PartAt(ds, block, d, cell[d]);
      assert Describes(meta.ranges, ds, block, d);
      assert ds.dims[d].coords.Valid();
    }
  }

  /** The first corner of a block moved to one position along a dimension. */
  function Corner(block: Block, d: nat, p: nat): (cell: seq<nat>)
    requires d < |block|
    ensures |cell| == |block| && forall e :: 0 <= e < |block| ==> cell[e] == if e == d then p else block[e].start
  {
    seq(|block|, e requires 0 <= e < |block| => if e == d then p else block[e].start)
  }

  lemma ValueAttained(ds: Dataset, block: Block, rows: seq<Row>, cells: seq<seq<nat>>, d: nat, m: ScalarBound)
    requires ds.Valid() && Inside(ds, block) && RowsOf(ds, block, rows, cells) && d < |ds.dims|
    requires Some(m) in Part(ds, d, block[d]).values
    ensures Attained(rows, ds.dims[d].name, BoundValue(m))
  {
    var values := Part(ds, d, block[d]).values;
    var i :| 0 <= i < |values| && values[i] == Some(m);
    var cell := Corner(block, d, block[d].start + i);
    assert InBlock(cell, block);
    var k :| 0 <= k < |cells| && cells[k] == cell;
    assert ShowsCell(ds, cells[k], rows[k]);
  }

  /** What is registered with a partition is exact: its ranges are the extremes of its rows. */
  lemma PairIsExact(ds: Dataset, schema: Schema, block: Block, meta: PartitionMetadata, rows: seq<Row>,
                    cells: seq<seq<nat>>)
    requires ds.Valid() && Typed(ds, schema) && Inside(ds, block) && FullMetadata(meta.ranges, ds, block)
    requires RowsOf(ds, block, rows, cells) && meta.numRows == |rows|
    ensures ExactPartition(schema, meta, rows)
  {
    forall i | 0 <= i < |rows| ensures RowIn(schema, meta, rows[i]) {
      RowInBlock(ds, schema, block, meta, cells[i], rows[i]);
    }
    forall c | c in meta.ranges
      ensures Attained(rows, c, BoundValue(meta.ranges[c].min)) && Attained(rows, c, BoundValue(meta.ranges[c].max))
    {
      var d :| 0 <= d < |ds.dims| && ds.dims[d].name == c;
      assert Describes(meta.ranges, ds, block, d);
      ValueAttained(ds, block, rows, cells, d, meta.ranges[c].min);
      ValueAttained(ds, block, rows, cells, d, meta.ranges[c].max);
    }
  }

  /** Every block of positive chunks lies inside the dataset. */
  lemma BlockIsInside(ds: Dataset, b: nat)
    requires ds.Valid() && b < |Blocks(ds.resolved)|
    requires PositiveChunks(ds)
    ensures Inside(ds, Blocks(ds.resolved)[b])
  {
    var c := Unravel(b, Lens(ds.resolved));
    forall d | 0 <= d < |ds.dims|
      ensures var s := Blocks(ds.resolved)[b][d]; s.start < s.stop <= |ds.dims[d].coords.values|
    {
      BoundMonotone(ds.resolved[d], c[d] + 1, |ds.resolved[d]|);
      assert ds.resolved[d][c[d]] > 0;
    }
  }

  function Offset(block: Block, idx: seq<nat>): (cell: seq<nat>)
    requires |idx| == |block|
    ensures |cell| == |block|
  {
    seq(|block|, d requires 0 <= d < |block| => block[d].start + idx[d])
  }

  /** The cells of a block in C order. */
  function Cells(block: Block, extents: seq<nat>): (cells: seq<seq<nat>>)
    requires |extents| == |block|
    ensures |cells| == Prod(extents)
  {
    seq(Prod(extents), i requires 0 <= i < Prod(extents) => Offset(block, Unravel(i, extents)))
  }

  predicate HasExtents(block: Block, extents: seq<nat>) {
    |block| == |extents| && forall d :: 0 <= d < |block| ==> block[d].stop == block[d].start + extents[d]
  }

  lemma CellsEnumerate(block: Block, extents: seq<nat>, cell: seq<nat>)
    requires HasExtents(block, extents)
    ensures cell in Cells(block, extents) <==> InBlock(cell, block)
  {
    if InBlock(cell, block) {
      var idx := seq(|block|, d requires 0 <= d < |block| =>
        (if cell[d] >= block[d].start then cell[d] - block[d].start else 0));
      assert InGrid(idx, extents);
      UnravelRavel(idx, extents);
      assert Offset(block, idx) == cell;
      assert Cells(block, extents)[Ravel(idx, extents)] == cell;
    }
    if cell in Cells(block, extents) {
      var i :| 0 <= i < |Cells(block, extents)| && Cells(block, extents)[i] == cell;
      var idx := Unravel(i, extents);
      assert cell == Offset(block, idx);
    }
  }

  ghost predicate PositiveChunks(ds: Dataset) {
    forall d, c :: 0 <= d < |ds.resolved| && 0 <= c < |ds.resolved[d]| ==> ds.resolved[d][c] > 0
  }

  /**
   Every partition of a dataset registers exact metadata: its ranges are the extremes of the rows
   that its block turns into, and its row count is their number.
   */
  lemma RegisteredMetadataExact(ds: Dataset, schema: Schema, metas: seq<PartitionMetadata>, b: nat, rows: seq<Row>)
    requires ds.Valid() && Typed(ds, schema) && PositiveChunks(ds)
    requires ArePairs(metas, ds, Blocks(ds.resolved), BlockLens(ds.resolved)) && b < |metas|
    requires var cells := Cells(Blocks(ds.resolved)[b], Extents(ds.resolved, Unravel(b, Lens(ds.resolved))));
             |rows| == |cells| && forall i :: 0 <= i < |rows| ==> ShowsCell(ds, cells[i], rows[i])
    ensures ExactPartition(schema, metas[b], rows)
  {
    var block := Blocks(ds.resolved)[b];
    var extents := Extents(ds.resolved, Unravel(b, Lens(ds.resolved)));
    BlockLenIsProduct(ds.resolved, b);
    forall cell ensures cell in Cells(block, extents) <==> InBlock(cell, block) {
      CellsEnumerate(block, extents, cell);
    }
    BlockIsInside(ds, b);
    PairIsExact(ds, schema, block, metas[b], rows, Cells(block, extents));
  }

  /** The counts of the pairs sum to the product of the dimension sizes. */
  lemma PairsConserveRows(ds: Dataset, metas: seq<PartitionMetadata>)
    requires |metas| == |Blocks(ds.resolved)| && ArePairs(metas, ds, Blocks(ds.resolved), BlockLens(ds.resolved))
    ensures TotalRows(metas) == Prod(Shape(ds.resolved))
  {
    TotalIsBound(metas, BlockLens(ds.resolved), |metas|);
    assert metas[..|metas|] == metas;
    RowsConserved(ds.resolved);
  }

  lemma {:induction false} TotalIsBound(metas: seq<PartitionMetadata>, lens: seq<nat>, n: nat)
    requires |metas| == |lens| && n <= |lens|
    requires forall b :: 0 <= b < |metas| ==> metas[b].numRows == lens[b]
    ensures TotalRows(metas[..n]) == Bound(lens, n)
  {
    if n > 0 {
      TotalIsBound(metas, lens, n - 1);
      assert metas[..n][..n - 1] == metas[..n - 1];
    }
  }

  /** The rows of a partition: one for each cell of its block. */
  ghost predicate BlockShown(ds: Dataset, b: nat, rows: seq<Row>)
    requires b < |Blocks(ds.resolved)|
  {
    var cells := Cells(Blocks(ds.resolved)[b], Extents(ds.resolved, Unravel(b, Lens(ds.resolved))));
    |rows| == |cells| && forall i :: 0 <= i < |rows| ==> ShowsCell(ds, cells[i], rows[i])
  }

  /**
   From the dataset to the planner: whatever the columns and the chunks, the statistics of a scan
   of all its partitions are true of the rows they hold, and its row count is the size of the grid
   if that fits.
   */
  lemma RegisteredStatisticsTrue(ds: Dataset, schema: Schema, metas: seq<PartitionMetadata>,
                                 partitions: seq<seq<Row>>, fields: seq<Field>, stats: Statistics)
    requires ds.Valid() && Typed(ds, schema) && PositiveChunks(ds)
    requires |metas| == |partitions| == |Blocks(ds.resolved)|
    requires ArePairs(metas, ds, Blocks(ds.resolved), BlockLens(ds.resolved))
    requires forall b :: 0 <= b < |partitions| ==> BlockShown(ds, b, partitions[b])
    requires StatisticsOf(stats, fields, metas)
    ensures forall k :: 0 <= k < |fields| ==> TrueOf(stats.columns[k], fields[k], partitions)
    ensures stats.numRows == Some(Prod(Shape(ds.resolved))) <==> Prod(Shape(ds.resolved)) <= MAX_SIZE
  {
    forall b | 0 <= b < |metas| ensures ExactPartition(schema, metas[b], partitions[b]) {
      assert BlockShown(ds, b, partitions[b]);
      RegisteredMetadataExact(ds, schema, metas, b, partitions[b]);
    }
    ScanStatisticsExact(schema, fields, metas, partitions, stats);
    PairsConserveRows(ds, metas);
  }
}
