/**
 The exact statistics of a scan: row counts summed over the surviving partitions, and the extremes
 of each dimension column folded over their ranges and converted to the column's own type.
 */
module ScanStatistics {
  import opened Casts
  import opened Pruning
  import opened Scalars
  import opened Wrappers

  /** A statistic is exact or unknown. */
  type Precision<T> = Option<T>

  datatype ColumnStatistics = ColumnStatistics(
    nullCount: Precision<nat>,
    min: Precision<ScalarValue>,
    max: Precision<ScalarValue>)

  const UNKNOWN := ColumnStatistics(None, None, None)

  datatype Statistics = Statistics(numRows: Precision<nat>, byteSize: Precision<nat>, columns: seq<ColumnStatistics>)

  const MAX_SIZE: nat := 0xFFFF_FFFF_FFFF_FFFF

  function Saturate(n: nat): nat {
    if n <= MAX_SIZE then n else MAX_SIZE
  }

  // ---------------------------------------------------------------------
  // Row counts and sizes
  // ---------------------------------------------------------------------

  function TotalRows(metas: seq<PartitionMetadata>): nat {
    if metas == [] then 0 else TotalRows(metas[..|metas| - 1]) + metas[|metas| - 1].numRows
  }

  /** The saturating sum is the true total, or the largest count there is. */
  method SumRowCounts(metas: seq<PartitionMetadata>) returns (rows: nat)
    ensures rows == Saturate(TotalRows(metas))
  {
    rows := 0;
    for k := 0 to |metas|
      invariant rows == Saturate(TotalRows(metas[..k]))
    {
      assert metas[..k + 1][..k] == metas[..k];
      rows := Saturate(rows + metas[k].numRows);
    }
    assert metas[..|metas|] == metas;
  }

  /** Bytes per value of fixed-width types; dates, times and decimals are among the other types. */
  function PrimitiveWidth(t: DataType): Option<nat> {
    match t
    case Int8 => Some(1)
    case UInt8 => Some(1)
    case Int16 => Some(2)
    case UInt16 => Some(2)
    case Int32 => Some(4)
    case UInt32 => Some(4)
    case Int64 => Some(8)
    case UInt64 => Some(8)
    case Float(w) => Some(match w case Half => 2 case Single => 4 case Double => 8)
    case Timestamp(_, _) => Some(8)
    case Duration(_) => Some(8)
    case Interval(u) => Some(match u case YearMonth => 4 case DayTime => 8 case MonthDayNano => 16)
    case OtherType(_, bytes) => bytes
    case _ => None
  }

  /** The number of values that so many bytes tell apart. */
  function ValuesOf(bytes: nat): int {
    if bytes == 0 then 1 else 256 * ValuesOf(bytes - 1)
  }

  lemma ValuesUpToEight()
    ensures ValuesOf(1) == 0x100 && ValuesOf(2) == 0x1_0000 && ValuesOf(4) == 0x1_0000_0000
    ensures ValuesOf(8) == 0x1_0000_0000_0000_0000
  {
    assert ValuesOf(3) == 256 * ValuesOf(2);
    assert ValuesOf(5) == 256 * ValuesOf(4) && ValuesOf(6) == 256 * ValuesOf(5);
    assert ValuesOf(7) == 256 * ValuesOf(6) && ValuesOf(8) == 256 * ValuesOf(7);
  }

  /** The width of an integer or temporal type is the one whose values are its range. */
  lemma WidthHoldsRange(t: DataType, n: int)
    requires PrimitiveWidth(t).Some?
    ensures var all := ValuesOf(PrimitiveWidth(t).value);
            && (SignedIntegerWidth(t).Some? ==> (InIntegerRange(t, n) <==> -all <= 2 * n < all))
            && (UnsignedIntegerWidth(t).Some? ==> (InIntegerRange(t, n) <==> 0 <= n < all))
            && (t.Timestamp? || t.Duration? ==> (FitsI64(n) <==> -all <= 2 * n < all))
  {
    ValuesUpToEight();
  }

  /** Numbers, times and intervals have a fixed width, other types if they say so, and the rest do not. */
  lemma WidthKnown(t: DataType)
    ensures PrimitiveWidth(t).Some? <==>
              || IsInteger(t) || t.Float? || t.Timestamp? || t.Duration? || t.Interval?
              || (t.OtherType? && t.bytes.Some?)
    ensures t.OtherType? ==> PrimitiveWidth(t) == t.bytes
    ensures SignedIntegerWidth(t).Some? ==> SignedIntegerWidth(t).value == 8 * PrimitiveWidth(t).value
    ensures UnsignedIntegerWidth(t).Some? ==> UnsignedIntegerWidth(t).value == 8 * PrimitiveWidth(t).value
    ensures t.Float? ==> Widest(t.width) == 8 * PrimitiveWidth(t).value
  {}

  /** A float's width has room for the sign and significand, and for its exponents and two more. */
  lemma WidthHoldsFloats(w: FloatWidth, m: int, e: int) returns (limit: int, low: int, high: int)
    ensures Significand(w, m) <==> -limit < m < limit
    ensures Exponent(w, e) <==> low <= e <= high
    ensures PrimitiveWidth(Float(w)).Some? && limit * (high - low + 3) == ValuesOf(PrimitiveWidth(Float(w)).value)
  {
    ValuesUpToEight();
    match w
    case Half => limit, low, high := 0x800, -24, 5;
    case Single => limit, low, high := 0x100_0000, -149, 104;
    case Double => limit, low, high := 0x20_0000_0000_0000, -1074, 971;
  }

  /** An interval is as wide as its fields: months; days and milliseconds; months, days and nanoseconds. */
  lemma WidthHoldsIntervals()
    ensures PrimitiveWidth(Interval(YearMonth)) == PrimitiveWidth(Int32)
    ensures PrimitiveWidth(Interval(DayTime)) == Some(2 * PrimitiveWidth(Int32).value)
    ensures PrimitiveWidth(Interval(MonthDayNano))
              == Some(2 * PrimitiveWidth(Int32).value + PrimitiveWidth(Int64).value)
  {}

  datatype Field = Field(name: string, dtype: DataType)

  predicate FixedWidth(fields: seq<Field>) {
    forall k :: 0 <= k < |fields| ==> PrimitiveWidth(fields[k].dtype).Some?
  }

  function RowWidth(fields: seq<Field>): nat
    requires FixedWidth(fields)
  {
    if fields == [] then 0
    else RowWidth(fields[..|fields| - 1]) + PrimitiveWidth(fields[|fields| - 1].dtype).value
  }

  /** Known exactly when every column has a fixed width. */
  method TotalByteSize(fields: seq<Field>, rows: nat) returns (size: Precision<nat>)
    ensures size.Some? <==> FixedWidth(fields)
    ensures size.Some? ==> size.value == Saturate(rows * RowWidth(fields))
  {
    var width := 0;
    for k := 0 to |fields|
      invariant FixedWidth(fields[..k])
      invariant width == RowWidth(fields[..k])
    {
      assert fields[..k + 1][..k] == fields[..k];
      match PrimitiveWidth(fields[k].dtype) {
        case Some(w) => width := width + w;
        case None => return None;
      }
    }
    assert fields[..|fields|] == fields;
    return Some(Saturate(rows * width));
  }

  // ---------------------------------------------------------------------
  // Bounds
  // ---------------------------------------------------------------------

  /** A value of the same kind that does not lie below a minimum, or above a maximum. */
  ghost predicate NotBeyond(extreme: Value, v: Value, least: bool) {
    SameKind(extreme, v) && !(if least then Under(v, extreme) else Under(extreme, v))
  }

  /** The smaller or the larger of two bounds; nothing when they do not compare. */
  function FoldBound(a: ScalarBound, b: ScalarBound, keepMin: bool): (r: Option<ScalarBound>)
    ensures r.Some? <==> Order(BoundValue(a), BoundValue(b)).Some?
    ensures r.Some? ==> r.value in {a, b}
    ensures r.Some? && keepMin ==>
              AtMost(BoundValue(r.value), BoundValue(a)) && AtMost(BoundValue(r.value), BoundValue(b))
    ensures r.Some? && !keepMin ==>
              AtMost(BoundValue(a), BoundValue(r.value)) && AtMost(BoundValue(b), BoundValue(r.value))
    ensures r.Some? ==>
              && NotBeyond(BoundValue(r.value), BoundValue(a), keepMin)
              && NotBeyond(BoundValue(r.value), BoundValue(b), keepMin)
  {
    OrderMeaning(BoundValue(a), BoundValue(b));
    OrderMeaning(BoundValue(b), BoundValue(a));
    OrderMeaning(BoundValue(a), BoundValue(a));
    OrderMeaning(BoundValue(b), BoundValue(b));
    CompareToBoundExact(a, b);
    OrderEqual(BoundValue(a), BoundValue(b));
    OrderEqual(BoundValue(a), BoundValue(a));
    OrderEqual(BoundValue(b), BoundValue(b));
    if CompareToBound(a, b).None? then None
    else if (if keepMin then CompareToBound(a, b).value != Greater else CompareToBound(a, b).value != Less) then Some(a)
    else Some(b)
  }

  /** Division of signed 128-bit integers truncates toward zero. */
  function TruncDiv(a: int, b: int): int
    requires b > 0
  {
    if a >= 0 then a / b else -((-a) / b)
  }

  function TruncMod(a: int, b: int): int
    requires b > 0
  {
    a - b * TruncDiv(a, b)
  }

  /** An instant or a duration in whole ticks of the unit, if it is one that 64 bits hold. */
  function TemporalBoundInUnit(nanos: int, unit: TimeUnit): (r: Option<I64>)
    ensures r.Some? <==> IsTicks(unit, nanos)
    ensures r.Some? ==> r.value * Factor(unit) == nanos
  {
    if TruncMod(nanos, Factor(unit)) != 0 then None
    else
      var ticks := TruncDiv(nanos, Factor(unit));
      if FitsI64(ticks) then Some(ticks) else None
  }

  function BoundToScalar(b: ScalarBound, t: DataType): Option<ScalarValue> {
    match (b, t)
    case (BooleanBound(v), Boolean) => Some(BooleanScalar(v))
    case (Int8Bound(v), Int8) => Some(Int8Scalar(v))
    case (Int16Bound(v), Int16) => Some(Int16Scalar(v))
    case (Int32Bound(v), Int32) => Some(Int32Scalar(v))
    case (Int64Bound(v), Int64) => Some(Int64Scalar(v))
    case (UInt8Bound(u), UInt8) => Some(UInt8Scalar(u))
    case (UInt16Bound(u), UInt16) => Some(UInt16Scalar(u))
    case (UInt32Bound(u), UInt32) => Some(UInt32Scalar(u))
    case (UInt64Bound(u), UInt64) => Some(UInt64Scalar(u))
    case (FloatBound(w, f), Float(width)) => if w == width then Some(FloatScalar(w, f)) else None
    case (Utf8Bound(s), Utf8(layout)) => Some(Utf8Scalar(layout, s))
    case (BinaryBound(s), Binary(layout)) => Some(BinaryScalar(layout, s))
    case (BinaryBound(s), FixedSizeBinary(size)) => if size == |s| then Some(FixedSizeBinaryScalar(size, s)) else None
    case (TimestampBound(_, _), Timestamp(unit, tz)) =>
      (match TemporalBoundInUnit(TimestampOfBound(b).value, unit)
       case Some(ticks) => Some(TimestampScalar(unit, ticks, tz))
       case None => None)
    case (DurationBound(_, _), Duration(unit)) =>
      (match TemporalBoundInUnit(DurationOfBound(b).value, unit)
       case Some(ticks) => Some(DurationScalar(unit, ticks))
       case None => None)
    case _ => None
  }

  lemma TemporalLossless(b: ScalarBound, t: DataType)
    requires BoundToScalar(b, t).Some? && (b.TimestampBound? || b.DurationBound?)
    ensures TypeOf(BoundToScalar(b, t).value) == t
    ensures Denote(BoundToScalar(b, t).value) == Some(BoundValue(b))
  {
    if b.TimestampBound? {
      var ticks := TemporalBoundInUnit(TimestampOfBound(b).value, t.unit);
    } else {
      var ticks := TemporalBoundInUnit(DurationOfBound(b).value, t.unit);
    }
  }

  lemma OtherLossless(b: ScalarBound, t: DataType)
    requires BoundToScalar(b, t).Some? && !b.TimestampBound? && !b.DurationBound?
    ensures TypeOf(BoundToScalar(b, t).value) == t
    ensures Denote(BoundToScalar(b, t).value) == Some(BoundValue(b))
  {}

  /** A converted bound has the column's type and the same value: units change, nothing is lost. */
  lemma BoundToScalarLossless(b: ScalarBound, t: DataType)
    requires BoundToScalar(b, t).Some?
    ensures TypeOf(BoundToScalar(b, t).value) == t
    ensures Denote(BoundToScalar(b, t).value) == Some(BoundValue(b))
  {
    if b.TimestampBound? || b.DurationBound? {
      TemporalLossless(b, t);
    } else {
      OtherLossless(b, t);
    }
  }

  /** A temporal bound converts exactly when the column's type holds its value. */
  lemma TemporalBoundConverts(b: ScalarBound, t: DataType)
    requires (b.TimestampBound? && t.Timestamp?) || (b.DurationBound? && t.Duration?)
    ensures BoundToScalar(b, t).Some? <==> HasType(t, BoundValue(b))
  {}

  /** Strings and bytes convert to every layout, and to a fixed size exactly when they have it. */
  lemma BytesBoundConverts(s: Bytes, layout: Layout, size: int)
    ensures BoundToScalar(Utf8Bound(s), Utf8(layout)).Some? && BoundToScalar(BinaryBound(s), Binary(layout)).Some?
    ensures BoundToScalar(BinaryBound(s), FixedSizeBinary(size)).Some? <==>
            HasType(FixedSizeBinary(size), BoundValue(BinaryBound(s)))
  {}

  /** The column type a bound is taken from. */
  function NativeType(b: ScalarBound): DataType {
    match b
    case BooleanBound(_) => Boolean
    case Int8Bound(_) => Int8
    case Int16Bound(_) => Int16
    case Int32Bound(_) => Int32
    case Int64Bound(_) => Int64
    case UInt8Bound(_) => UInt8
    case UInt16Bound(_) => UInt16
    case UInt32Bound(_) => UInt32
    case UInt64Bound(_) => UInt64
    case FloatBound(w, _) => Float(w)
    case Utf8Bound(_) => Utf8(Plain)
    case BinaryBound(_) => Binary(Plain)
    case TimestampBound(unit, _) => Timestamp(unit, None)
    case DurationBound(unit, _) => Duration(unit)
  }

  /** In a column of its own type a bound is never left out. */
  lemma NativeBoundConverts(b: ScalarBound)
    ensures BoundToScalar(b, NativeType(b)).Some?
  {
    if b.TimestampBound? || b.DurationBound? {
      TemporalBoundConverts(b, NativeType(b));
    }
  }

  // ---------------------------------------------------------------------
  // Folding a column
  // ---------------------------------------------------------------------

  predicate Ranged(metas: seq<PartitionMetadata>, c: string) {
    forall k :: 0 <= k < |metas| ==> c in metas[k].ranges
  }

  /** At most, or the very same bound, which NaN need not be comparable to be. */
  predicate SameOrAtMost(a: ScalarBound, b: ScalarBound) {
    a == b || AtMost(BoundValue(a), BoundValue(b))
  }

  /** The bound is the minimum of one range and at most the minimum of each. */
  ghost predicate IsLeast(b: ScalarBound, metas: seq<PartitionMetadata>, c: string)
    requires Ranged(metas, c)
  {
    && (exists k :: 0 <= k < |metas| && metas[k].ranges[c].min == b)
    && forall k :: 0 <= k < |metas| ==> SameOrAtMost(b, metas[k].ranges[c].min)
  }

  ghost predicate IsGreatest(b: ScalarBound, metas: seq<PartitionMetadata>, c: string)
    requires Ranged(metas, c)
  {
    && (exists k :: 0 <= k < |metas| && metas[k].ranges[c].max == b)
    && forall k :: 0 <= k < |metas| ==> SameOrAtMost(metas[k].ranges[c].max, b)
  }

  /** The bounds of a column have one kind across the partitions; a single range is taken as it is. */
  ghost predicate Comparable(metas: seq<PartitionMetadata>, c: string)
    requires Ranged(metas, c)
  {
    |metas| == 1 || forall k :: 0 <= k < |metas| ==>
      && Order(BoundValue(metas[0].ranges[c].min), BoundValue(metas[k].ranges[c].min)).Some?
      && Order(BoundValue(metas[0].ranges[c].max), BoundValue(metas[k].ranges[c].max)).Some?
  }

  lemma ComparableTransitive(a: Value, b: Value, c: Value)
    requires Order(a, b).Some?
    ensures Order(a, c).Some? <==> Order(b, c).Some?
  {}

  lemma ComparableToItself(a: Value, b: Value)
    ensures Order(a, b).Some? ==> Order(a, a).Some?
  {}

  lemma LeastExtends(lo: ScalarBound, metas: seq<PartitionMetadata>, meta: PartitionMetadata, c: string, r: ScalarBound)
    requires Ranged(metas, c) && c in meta.ranges && IsLeast(lo, metas, c)
    requires FoldBound(lo, meta.ranges[c].min, true) == Some(r)
    ensures Ranged(metas + [meta], c) && IsLeast(r, metas + [meta], c)
  {
    var all := metas + [meta];
    var j :| 0 <= j < |metas| && metas[j].ranges[c].min == lo;
    assert all[j].ranges[c].min == lo && all[|metas|].ranges[c].min == meta.ranges[c].min;
    forall k | 0 <= k < |all| ensures SameOrAtMost(r, all[k].ranges[c].min) {
      if k < |metas| && all[k].ranges[c].min != lo {
        OrderTransitive(BoundValue(r), BoundValue(lo), BoundValue(all[k].ranges[c].min));
      }
    }
  }

  lemma GreatestExtends(hi: ScalarBound, metas: seq<PartitionMetadata>, meta: PartitionMetadata, c: string,
                        r: ScalarBound)
    requires Ranged(metas, c) && c in meta.ranges && IsGreatest(hi, metas, c)
    requires FoldBound(hi, meta.ranges[c].max, false) == Some(r)
    ensures Ranged(metas + [meta], c) && IsGreatest(r, metas + [meta], c)
  {
    var all := metas + [meta];
    var j :| 0 <= j < |metas| && metas[j].ranges[c].max == hi;
    assert all[j].ranges[c].max == hi && all[|metas|].ranges[c].max == meta.ranges[c].max;
    forall k | 0 <= k < |all| ensures SameOrAtMost(all[k].ranges[c].max, r) {
      if k < |metas| && all[k].ranges[c].max != hi {
        OrderTransitive(BoundValue(all[k].ranges[c].max), BoundValue(hi), BoundValue(r));
      }
    }
  }

  /** The bounds folded over a prefix of the partitions, if every one so far has a comparable range. */
  ghost predicate FoldedTo(folded: Option<(ScalarBound, ScalarBound)>, metas: seq<PartitionMetadata>, c: string) {
    if metas == [] then folded == None
    else
      && folded.Some? && Ranged(metas, c) && Comparable(metas, c)
      && IsLeast(folded.value.0, metas, c) && IsGreatest(folded.value.1, metas, c)
  }

  lemma FoldStarts(meta: PartitionMetadata, c: string)
    requires c in meta.ranges
    ensures FoldedTo(Some((meta.ranges[c].min, meta.ranges[c].max)), [meta], c)
  {
    assert [meta][0] == meta;
  }

  lemma FoldContinues(folded: Option<(ScalarBound, ScalarBound)>, metas: seq<PartitionMetadata>,
                      meta: PartitionMetadata, c: string)
    requires metas != [] && FoldedTo(folded, metas, c) && c in meta.ranges
    ensures var lo := FoldBound(folded.value.0, meta.ranges[c].min, true);
            var hi := FoldBound(folded.value.1, meta.ranges[c].max, false);
            && Ranged(metas + [meta], c)
            && (lo.Some? && hi.Some? <==> Comparable(metas + [meta], c))
            && (lo.Some? && hi.Some? ==> FoldedTo(Some((lo.value, hi.value)), metas + [meta], c))
  {
    var lo := FoldBound(folded.value.0, meta.ranges[c].min, true);
    var hi := FoldBound(folded.value.1, meta.ranges[c].max, false);
    ComparableExtends(folded.value.0, folded.value.1, metas, meta, c);
    if lo.Some? && hi.Some? {
      LeastExtends(folded.value.0, metas, meta, c, lo.value);
      GreatestExtends(folded.value.1, metas, meta, c, hi.value);
    }
  }

  lemma ComparableExtends(lo: ScalarBound, hi: ScalarBound, metas: seq<PartitionMetadata>,
                          meta: PartitionMetadata, c: string)
    requires metas != [] && Ranged(metas, c) && Comparable(metas, c) && c in meta.ranges
    requires exists k :: 0 <= k < |metas| && metas[k].ranges[c].min == lo
    requires exists k :: 0 <= k < |metas| && metas[k].ranges[c].max == hi
    ensures Ranged(metas + [meta], c)
    ensures Comparable(metas + [meta], c) <==>
            && Order(BoundValue(lo), BoundValue(meta.ranges[c].min)).Some?
            && Order(BoundValue(hi), BoundValue(meta.ranges[c].max)).Some?
  {
    var all := metas + [meta];
    assert all[0] == metas[0] && all[|metas|] == meta;
    if |metas| == 1 {
      assert metas[0].ranges[c].min == lo && metas[0].ranges[c].max == hi;
      ComparableToItself(BoundValue(lo), BoundValue(meta.ranges[c].min));
      ComparableToItself(BoundValue(hi), BoundValue(meta.ranges[c].max));
    } else {
      ComparableTransitive(BoundValue(metas[0].ranges[c].min), BoundValue(lo), BoundValue(meta.ranges[c].min));
      ComparableTransitive(BoundValue(metas[0].ranges[c].max), BoundValue(hi), BoundValue(meta.ranges[c].max));
    }
  }

  ghost predicate Foldable(metas: seq<PartitionMetadata>, c: string) {
    metas != [] && Ranged(metas, c) && Comparable(metas, c)
  }

  /** One iteration: the bounds so far with those of the next partition, or nothing. */
  method FoldNext(folded: Option<(ScalarBound, ScalarBound)>, ghost metas: seq<PartitionMetadata>,
                  meta: PartitionMetadata, c: string)
    returns (next: Option<(ScalarBound, ScalarBound)>)
    requires FoldedTo(folded, metas, c)
    ensures if Foldable(metas + [meta], c) then FoldedTo(next, metas + [meta], c) else next == None
  {
    assert (metas + [meta])[|metas|] == meta;
    if c !in meta.ranges {
      return None;
    }
    var range := meta.ranges[c];
    match folded {
      case None =>
        assert metas + [meta] == [meta];
        FoldStarts(meta, c);
        next := Some((range.min, range.max));
      case Some((lo, hi)) =>
        FoldContinues(folded, metas, meta, c);
        var least, greatest := FoldBound(lo, range.min, true), FoldBound(hi, range.max, false);
        if least.None? || greatest.None? {
          return None;
        }
        next := Some((least.value, greatest.value));
    }
  }

  /** The loop over partitions for one column; nothing when a partition lacks a comparable range. */
  method FoldColumn(metas: seq<PartitionMetadata>, c: string) returns (folded: Option<(ScalarBound, ScalarBound)>)
    ensures folded.Some? <==> Foldable(metas, c)
    ensures folded.Some? ==> IsLeast(folded.value.0, metas, c) && IsGreatest(folded.value.1, metas, c)
  {
    folded := None;
    for k := 0 to |metas|
      invariant FoldedTo(folded, metas[..k], c)
    {
      assert metas[..k + 1] == metas[..k] + [metas[k]];
      folded := FoldNext(folded, metas[..k], metas[k], c);
      if folded.None? {
        FoldablePrefix(metas, k + 1, c);
        return None;
      }
    }
    assert metas[..|metas|] == metas;
  }

  lemma FoldablePrefix(metas: seq<PartitionMetadata>, n: nat, c: string)
    requires 0 < n <= |metas| && !Foldable(metas[..n], c)
    ensures !Foldable(metas, c)
  {
    if Ranged(metas, c) {
      forall k | 0 <= k < n ensures c in metas[..n][k].ranges {
        assert metas[..n][k] == metas[k];
      }
    }
  }

  // ---------------------------------------------------------------------
  // The statistics of a scan
  // ---------------------------------------------------------------------

  ghost predicate Reports(s: ColumnStatistics, field: Field, metas: seq<PartitionMetadata>) {
    if Foldable(metas, field.name) then
      exists lo, hi :: IsLeast(lo, metas, field.name) && IsGreatest(hi, metas, field.name)
        && s == ColumnStatistics(Some(0), BoundToScalar(lo, field.dtype), BoundToScalar(hi, field.dtype))
    else s == UNKNOWN
  }

  method BuildColumnStatistics(field: Field, metas: seq<PartitionMetadata>) returns (s: ColumnStatistics)
    ensures Reports(s, field, metas)
  {
    var folded := FoldColumn(metas, field.name);
    if folded.None? {
      return UNKNOWN;
    }
    s := ColumnStatistics(
      Some(0), BoundToScalar(folded.value.0, field.dtype), BoundToScalar(folded.value.1, field.dtype));
  }

  ghost predicate ReportsAll(columns: seq<ColumnStatistics>, fields: seq<Field>, metas: seq<PartitionMetadata>) {
    |columns| <= |fields| && forall k :: 0 <= k < |columns| ==> Reports(columns[k], fields[k], metas)
  }

  lemma ReportsSnoc(columns: seq<ColumnStatistics>, column: ColumnStatistics, fields: seq<Field>,
                    metas: seq<PartitionMetadata>)
    requires ReportsAll(columns, fields, metas) && |columns| < |fields|
    requires Reports(column, fields[|columns|], metas)
    ensures ReportsAll(columns + [column], fields, metas)
  {}

  method BuildAllColumns(fields: seq<Field>, metas: seq<PartitionMetadata>) returns (columns: seq<ColumnStatistics>)
    ensures |columns| == |fields| && ReportsAll(columns, fields, metas)
  {
    columns := [];
    for k := 0 to |fields|
      invariant |columns| == k && ReportsAll(columns, fields, metas)
    {
      var column := BuildColumnStatistics(fields[k], metas);
      ReportsSnoc(columns, column, fields, metas);
      columns := columns + [column];
    }
  }

  /** Row count and byte size saturate; a size is known exactly when every column has a fixed width. */
  ghost predicate StatisticsOf(stats: Statistics, fields: seq<Field>, metas: seq<PartitionMetadata>) {
    && stats.numRows == Some(Saturate(TotalRows(metas)))
    && (stats.byteSize.Some? <==> FixedWidth(fields))
    && (stats.byteSize.Some? ==> stats.byteSize.value == Saturate(stats.numRows.value * RowWidth(fields)))
    && |stats.columns| == |fields| && ReportsAll(stats.columns, fields, metas)
  }

  method BuildScanStatistics(fields: seq<Field>, metas: seq<PartitionMetadata>) returns (stats: Statistics)
    ensures StatisticsOf(stats, fields, metas)
  {
    var rows := SumRowCounts(metas);
    var size := TotalByteSize(fields, rows);
    var columns := BuildAllColumns(fields, metas);
    stats := Statistics(Some(rows), size, columns);
  }

  // ---------------------------------------------------------------------
  // Exactness
  // ---------------------------------------------------------------------

  /** A nonempty partition whose ranges are exactly the extremes of its rows, with its row count. */
  ghost predicate ExactPartition(schema: Schema, meta: PartitionMetadata, rows: seq<Row>) {
    && |rows| == meta.numRows
    && (forall i :: 0 <= i < |rows| ==> RowIn(schema, meta, rows[i]))
    && forall c :: c in meta.ranges ==>
         && Attained(rows, c, BoundValue(meta.ranges[c].min))
         && Attained(rows, c, BoundValue(meta.ranges[c].max))
  }

  ghost predicate Attained(rows: seq<Row>, c: string, v: Value) {
    exists i :: 0 <= i < |rows| && c in rows[i] && rows[i][c] == v
  }

  /** The true minimum or maximum of a column over rows in which it is never NULL. */
  ghost predicate IsExtreme(partitions: seq<seq<Row>>, c: string, v: Value, least: bool) {
    && (exists p :: 0 <= p < |partitions| && Attained(partitions[p], c, v))
    && forall p, i :: 0 <= p < |partitions| && 0 <= i < |partitions[p]| ==>
         c in partitions[p][i] && NotBeyond(v, partitions[p][i][c], least)
  }

  /** A lower bound of the range is one of every row, and an upper bound too. */
  lemma PartitionBounds(schema: Schema, meta: PartitionMetadata, rows: seq<Row>, c: string,
                        lo: ScalarBound, hi: ScalarBound)
    requires ExactPartition(schema, meta, rows) && c in meta.ranges
    requires SameOrAtMost(lo, meta.ranges[c].min) && SameOrAtMost(meta.ranges[c].max, hi)
    ensures forall i :: 0 <= i < |rows| ==>
              && c in rows[i]
              && NotBeyond(BoundValue(lo), rows[i][c], true) && NotBeyond(BoundValue(hi), rows[i][c], false)
  {
    forall i | 0 <= i < |rows|
      ensures c in rows[i]
      ensures NotBeyond(BoundValue(lo), rows[i][c], true) && NotBeyond(BoundValue(hi), rows[i][c], false)
    {
      assert RowIn(schema, meta, rows[i]);
      AtLeastMinimum(lo, meta.ranges[c].min, rows[i][c]);
      AtMostMaximum(hi, meta.ranges[c].max, rows[i][c]);
    }
  }

  lemma AtLeastMinimum(lo: ScalarBound, min: ScalarBound, v: Value)
    requires SameOrAtMost(lo, min) && AtMost(BoundValue(min), v)
    ensures NotBeyond(BoundValue(lo), v, true)
  {
    if lo != min { OrderTransitive(BoundValue(lo), BoundValue(min), v); }
    OrderMeaning(BoundValue(lo), v);
  }

  lemma AtMostMaximum(hi: ScalarBound, max: ScalarBound, v: Value)
    requires SameOrAtMost(max, hi) && AtMost(v, BoundValue(max))
    ensures NotBeyond(BoundValue(hi), v, false)
  {
    if hi != max { OrderTransitive(v, BoundValue(max), BoundValue(hi)); }
    OrderMeaning(v, BoundValue(hi));
    KindsSwap(v, BoundValue(hi));
  }

  lemma KindsSwap(a: Value, b: Value)
    ensures SameKind(a, b) == SameKind(b, a)
  {}

  /** The folded bounds are the extremes of the column over the rows of all partitions. */
  lemma FoldedAreExtremes(schema: Schema, metas: seq<PartitionMetadata>, partitions: seq<seq<Row>>, c: string,
                          lo: ScalarBound, hi: ScalarBound)
    requires |metas| == |partitions| && Ranged(metas, c)
    requires IsLeast(lo, metas, c) && IsGreatest(hi, metas, c)
    requires forall p :: 0 <= p < |metas| ==> ExactPartition(schema, metas[p], partitions[p])
    ensures IsExtreme(partitions, c, BoundValue(lo), true)
    ensures IsExtreme(partitions, c, BoundValue(hi), false)
  {
    var j :| 0 <= j < |metas| && metas[j].ranges[c].min == lo;
    var k :| 0 <= k < |metas| && metas[k].ranges[c].max == hi;
    assert ExactPartition(schema, metas[j], partitions[j]) && ExactPartition(schema, metas[k], partitions[k]);
    assert Attained(partitions[j], c, BoundValue(lo)) && Attained(partitions[k], c, BoundValue(hi));
    forall p | 0 <= p < |partitions|
      ensures forall i :: 0 <= i < |partitions[p]| ==>
        && c in partitions[p][i]
        && NotBeyond(BoundValue(lo), partitions[p][i][c], true) && NotBeyond(BoundValue(hi), partitions[p][i][c], false)
    {
      PartitionBounds(schema, metas[p], partitions[p], c, lo, hi);
    }
  }

  /**
   Every statistic reported for a column is true of the rows: no NULLs, and minimum and maximum of
   the column's type that denote its extremes over all partitions.
   */
  ghost predicate TrueOf(s: ColumnStatistics, field: Field, partitions: seq<seq<Row>>) {
    && (s.nullCount.Some? ==> s.nullCount.value == 0 && NeverNull(partitions, field.name))
    && (s.min.Some? ==> DenotesExtreme(s.min.value, field, partitions, true))
    && (s.max.Some? ==> DenotesExtreme(s.max.value, field, partitions, false))
  }

  ghost predicate NeverNull(partitions: seq<seq<Row>>, c: string) {
    forall p, i :: 0 <= p < |partitions| && 0 <= i < |partitions[p]| ==> c in partitions[p][i]
  }

  ghost predicate DenotesExtreme(s: ScalarValue, field: Field, partitions: seq<seq<Row>>, least: bool) {
    TypeOf(s) == field.dtype && Denote(s).Some? && IsExtreme(partitions, field.name, Denote(s).value, least)
  }

  lemma ColumnStatisticsExact(schema: Schema, metas: seq<PartitionMetadata>, partitions: seq<seq<Row>>,
                              field: Field, s: ColumnStatistics)
    requires |metas| == |partitions| && Reports(s, field, metas)
    requires forall p :: 0 <= p < |metas| ==> ExactPartition(schema, metas[p], partitions[p])
    ensures TrueOf(s, field, partitions)
  {
    if s != UNKNOWN {
      var lo, hi :| IsLeast(lo, metas, field.name) && IsGreatest(hi, metas, field.name)
        && s == ColumnStatistics(Some(0), BoundToScalar(lo, field.dtype), BoundToScalar(hi, field.dtype));
      FoldedAreExtremes(schema, metas, partitions, field.name, lo, hi);
      if s.min.Some? { BoundToScalarLossless(lo, field.dtype); }
      if s.max.Some? { BoundToScalarLossless(hi, field.dtype); }
    }
  }

  ghost predicate Counted(metas: seq<PartitionMetadata>, partitions: seq<seq<Row>>) {
    |metas| == |partitions| && forall p :: 0 <= p < |metas| ==> metas[p].numRows == |partitions[p]|
  }

  /** The counts of the partitions add up to the rows a scan of them yields. */
  lemma {:induction false} TotalRowsExact(metas: seq<PartitionMetadata>, partitions: seq<seq<Row>>, n: nat)
    requires Counted(metas, partitions) && n <= |metas|
    ensures TotalRows(metas[..n]) == |ScanRows(partitions, Upto(n))|
  {
    if n > 0 {
      TotalRowsExact(metas, partitions, n - 1);
      ScanSnoc(partitions, Upto(n - 1), n - 1);
      assert metas[..n][..n - 1] == metas[..n - 1];
    }
  }

  lemma TwoTotal(a: PartitionMetadata, b: PartitionMetadata)
    ensures TotalRows([a, b]) == a.numRows + b.numRows
  {
    assert [a, b][..1] == [a] && [a][..0] == [];
    assert TotalRows([a]) == a.numRows;
  }

  /** Two partitions of 2^63 rows each are reported as 2^64 - 1 rows, and that as exact. */
  lemma SaturatedCount()
    ensures var half := 0x8000_0000_0000_0000;
            var metas := [PartitionMetadata(map[], half), PartitionMetadata(map[], half)];
            var empty: Row := map[];
            var partitions := [seq(half, _ => empty), seq(half, _ => empty)];
            && Counted(metas, partitions)
            && Saturate(TotalRows(metas)) == MAX_SIZE && |ScanRows(partitions, Upto(2))| == MAX_SIZE + 1
  {
    var half := 0x8000_0000_0000_0000;
    var empty: Row := map[];
    var metas := [PartitionMetadata(map[], half), PartitionMetadata(map[], half)];
    var partitions := [seq(half, _ => empty), seq(half, _ => empty)];
    assert Counted(metas, partitions);
    TotalRowsExact(metas, partitions, 2);
    assert metas[..2] == metas;
    TwoTotal(metas[0], metas[1]);
  }

  /** The reported row count is the true one exactly when the true one fits. */
  lemma RowCountExact(metas: seq<PartitionMetadata>, partitions: seq<seq<Row>>)
    requires Counted(metas, partitions)
    ensures Saturate(TotalRows(metas)) == |ScanRows(partitions, Upto(|metas|))|
       <==> |ScanRows(partitions, Upto(|metas|))| <= MAX_SIZE
  {
    TotalRowsExact(metas, partitions, |metas|);
    assert metas[..|metas|] == metas;
  }

  /**
   For partitions with exact metadata, whatever their number and the columns asked for: every
   column statistic is true, and the row count is if the true one fits.
   */
  lemma ScanStatisticsExact(schema: Schema, fields: seq<Field>, metas: seq<PartitionMetadata>,
                            partitions: seq<seq<Row>>, stats: Statistics)
    requires StatisticsOf(stats, fields, metas) && |metas| == |partitions|
    requires forall p :: 0 <= p < |metas| ==> ExactPartition(schema, metas[p], partitions[p])
    ensures forall k :: 0 <= k < |fields| ==> TrueOf(stats.columns[k], fields[k], partitions)
    ensures stats.numRows == Some(|ScanRows(partitions, Upto(|metas|))|)
       <==> |ScanRows(partitions, Upto(|metas|))| <= MAX_SIZE
  {
    forall k | 0 <= k < |fields| ensures TrueOf(stats.columns[k], fields[k], partitions) {
      ColumnStatisticsExact(schema, metas, partitions, fields[k], stats.columns[k]);
    }
    RowCountExact(metas, partitions);
  }
}
