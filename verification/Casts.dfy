/**
 Casts between column types: which ones the pruning code looks through, and that a column seen
 through any nest of them still shows the value it holds.
 */
module Casts {
  import opened Scalars
  import opened Wrappers

  // ---------------------------------------------------------------------
  // Values of a type
  // ---------------------------------------------------------------------

  function Pow2(e: int): (p: real)
    ensures p > 0.0
    decreases if e < 0 then -e else e
  {
    if e == 0 then 1.0 else if e > 0 then 2.0 * Pow2(e - 1) else Pow2(e + 1) / 2.0
  }

  /** Binary floats of section 3.3 of IEEE 754-2019: an integer significand scaled by a power of two. */
  predicate Significand(w: FloatWidth, m: int) {
    match w
    case Half => -0x800 < m < 0x800
    case Single => -0x100_0000 < m < 0x100_0000
    case Double => -0x20_0000_0000_0000 < m < 0x20_0000_0000_0000
  }

  predicate Exponent(w: FloatWidth, e: int) {
    match w
    case Half => -24 <= e <= 5
    case Single => -149 <= e <= 104
    case Double => -1074 <= e <= 971
  }

  function Scaled(m: int, e: int): real {
    m as real * Pow2(e)
  }

  lemma ScaledDoubles(m: int, e: int)
    ensures Scaled(m, 0) == m as real && Scaled(m, e + 1) == 2.0 * Scaled(m, e)
  {}

  ghost predicate Representable(w: FloatWidth, f: Float) {
    f.Finite? ==> exists m: int, e: int :: Significand(w, m) && Exponent(w, e) && f.r == Scaled(m, e)
  }

  function Widest(w: FloatWidth): nat {
    match w case Half => 16 case Single => 32 case Double => 64
  }

  lemma WideningRepresents(small: FloatWidth, wide: FloatWidth, f: Float)
    requires Widest(small) <= Widest(wide) && Representable(small, f)
    ensures Representable(wide, f)
  {
    if f.Finite? {
      var m: int, e: int :| Significand(small, m) && Exponent(small, e) && f.r == Scaled(m, e);
      assert Significand(wide, m) && Exponent(wide, e);
    }
  }

  function SignedIntegerWidth(t: DataType): Option<nat> {
    match t
    case Int8 => Some(8)
    case Int16 => Some(16)
    case Int32 => Some(32)
    case Int64 => Some(64)
    case _ => None
  }

  function UnsignedIntegerWidth(t: DataType): Option<nat> {
    match t
    case UInt8 => Some(8)
    case UInt16 => Some(16)
    case UInt32 => Some(32)
    case UInt64 => Some(64)
    case _ => None
  }

  predicate IsInteger(t: DataType) {
    SignedIntegerWidth(t).Some? || UnsignedIntegerWidth(t).Some?
  }

  predicate InIntegerRange(t: DataType, n: int)
    requires IsInteger(t)
  {
    match t
    case Int8 => -0x80 <= n < 0x80
    case Int16 => -0x8000 <= n < 0x8000
    case Int32 => -0x8000_0000 <= n < 0x8000_0000
    case Int64 => FitsI64(n)
    case UInt8 => 0 <= n < 0x100
    case UInt16 => 0 <= n < 0x1_0000
    case UInt32 => 0 <= n < 0x1_0000_0000
    case UInt64 => 0 <= n < 0x1_0000_0000_0000_0000
  }

  /** A whole number of ticks that a 64-bit column can hold. */
  predicate IsTicks(unit: TimeUnit, nanos: int) {
    nanos % Factor(unit) == 0 && FitsI64(nanos / Factor(unit))
  }

  ghost predicate HasType(t: DataType, v: Value) {
    match t
    case Boolean => v.Truth?
    case Float(w) => v.Real? && Representable(w, v.f)
    case Utf8(_) => v.Text?
    case Binary(_) => v.Blob?
    case FixedSizeBinary(size) => v.Blob? && |v.s| == size
    case Timestamp(unit, _) => v.Instant? && IsTicks(unit, v.nanos)
    case Duration(unit) => v.Elapsed? && IsTicks(unit, v.nanos)
    case Interval(unit) => unit == MonthDayNano ==> v.Calendar? && FitsI64(v.rest)
    case OtherType(_, _) => true
    case _ => v.Number? && InIntegerRange(t, v.n)
  }

  /** A literal whose number, float or bytes fit its type has that type. */
  lemma LiteralHasType(s: ScalarValue)
    requires Denote(s).Some?
    requires IsInteger(TypeOf(s)) ==> InIntegerRange(TypeOf(s), Denote(s).value.n)
    requires s.FloatScalar? ==> Representable(s.width, s.f)
    requires s.FixedSizeBinaryScalar? ==> |s.s| == s.size
    ensures HasType(TypeOf(s), Denote(s).value)
  {}

  // ---------------------------------------------------------------------
  // What a cast does
  // ---------------------------------------------------------------------

  /** The outcome of evaluating an expression on a row. */
  datatype Outcome = Val(dtype: DataType, v: Value) | Null | Err

  /** Casts whose result the pruning code does not rely on. */
  type OtherCasts = (DataType, DataType, Value) -> Outcome

  /**
   Casting one value. Integers and interval nanoseconds are range-checked, a float is kept when
   the target can hold it, and an interval of no months and days is a length of time.
   */
  ghost function CastValue(other: OtherCasts, source: DataType, target: DataType, v: Value): Outcome {
    if source == target then Val(target, v)
    else if IsInteger(source) && IsInteger(target) && v.Number? then
      if InIntegerRange(target, v.n) then Val(target, v) else Err
    else if source.Float? && target.Float? && v.Real? && Representable(target.width, v.f) then Val(target, v)
    else if source.Duration? && target == Interval(MonthDayNano) && v.Elapsed? then
      if FitsI64(v.nanos) then Val(target, AsCalendar(v)) else Err
    else if source == Interval(MonthDayNano) && target.Duration? && v.Calendar? then
      if v.months == 0 && v.days == 0 && IsTicks(target.unit, v.rest) then Val(target, Elapsed(v.rest))
      else other(source, target, v)
    else other(source, target, v)
  }

  /** CAST fails on a value it cannot convert, TRY_CAST gives NULL; NULL and failure pass through. */
  ghost function CastOutcome(other: OtherCasts, o: Outcome, target: DataType, attempt: bool): Outcome {
    match o
    case Val(source, v) =>
      var r := CastValue(other, source, target, v);
      if r.Err? && attempt then Null else r
    case _ => o
  }

  // ---------------------------------------------------------------------
  // The casts looked through
  // ---------------------------------------------------------------------

  predicate OrderPreservingCast(source: DataType, target: DataType) {
    if source == target then true
    else if SignedIntegerWidth(source).Some? && SignedIntegerWidth(target).Some? then
      SignedIntegerWidth(target).value >= SignedIntegerWidth(source).value
    else if UnsignedIntegerWidth(source).Some? && UnsignedIntegerWidth(target).Some? then
      UnsignedIntegerWidth(target).value >= UnsignedIntegerWidth(source).value
    else if UnsignedIntegerWidth(source).Some? && SignedIntegerWidth(target).Some? then
      SignedIntegerWidth(target).value > UnsignedIntegerWidth(source).value
    else
      match (source, target)
      case (Float(a), Float(b)) => (a == Half && b != Half) || (a == Single && b == Double)
      case (Duration(_), Interval(unit)) => unit == MonthDayNano
      case _ => false
  }

  /** Every value of one integer type is a value of the other. */
  ghost predicate RangeWithin(source: DataType, target: DataType)
    requires IsInteger(source) && IsInteger(target)
  {
    forall n :: InIntegerRange(source, n) ==> InIntegerRange(target, n)
  }

  /** For an integer type, the values one beyond either end and those at the ends. */
  lemma RangeEnds(t: DataType)
    requires IsInteger(t)
    ensures SignedIntegerWidth(t).Some? ==> InIntegerRange(t, -0x80) && !InIntegerRange(t, 0xFFFF_FFFF_FFFF_FFFF)
    ensures UnsignedIntegerWidth(t).Some? ==> InIntegerRange(t, 0xFF) && !InIntegerRange(t, -1)
    ensures InIntegerRange(t, 0x7F) && InIntegerRange(t, 0xFF) == (t != Int8)
    ensures InIntegerRange(t, 0x7FFF) == (t !in {Int8, UInt8})
    ensures InIntegerRange(t, 0xFFFF) == (t !in {Int8, UInt8, Int16})
    ensures InIntegerRange(t, 0x7FFF_FFFF) == (t !in {Int8, UInt8, Int16, UInt16})
    ensures InIntegerRange(t, 0xFFFF_FFFF) == (t !in {Int8, UInt8, Int16, UInt16, Int32})
    ensures InIntegerRange(t, 0x7FFF_FFFF_FFFF_FFFF) == (t in {Int64, UInt64})
    ensures InIntegerRange(t, 0xFFFF_FFFF_FFFF_FFFF) == (t == UInt64)
  {}

  /**
   The casts looked through are those that cannot change an order: to an integer type that holds
   every value, to a float type at least as wide, and from durations to intervals.
   */
  lemma OrderPreservingExactly(source: DataType, target: DataType)
    ensures OrderPreservingCast(source, target) <==>
              || source == target
              || (IsInteger(source) && IsInteger(target) && RangeWithin(source, target))
              || (source.Float? && target.Float? && Widest(source.width) <= Widest(target.width))
              || (source.Duration? && target == Interval(MonthDayNano))
  {
    if IsInteger(source) && IsInteger(target) {
      RangeEnds(source);
      RangeEnds(target);
      if RangeWithin(source, target) {
        assert InIntegerRange(source, -0x80) ==> InIntegerRange(target, -0x80);
        assert InIntegerRange(source, 0xFF) ==> InIntegerRange(target, 0xFF);
        assert InIntegerRange(source, 0x7FFF) ==> InIntegerRange(target, 0x7FFF);
        assert InIntegerRange(source, 0xFFFF) ==> InIntegerRange(target, 0xFFFF);
        assert InIntegerRange(source, 0x7FFF_FFFF) ==> InIntegerRange(target, 0x7FFF_FFFF);
        assert InIntegerRange(source, 0xFFFF_FFFF) ==> InIntegerRange(target, 0xFFFF_FFFF);
        assert InIntegerRange(source, 0x7FFF_FFFF_FFFF_FFFF) ==> InIntegerRange(target, 0x7FFF_FFFF_FFFF_FFFF);
        assert InIntegerRange(source, 0xFFFF_FFFF_FFFF_FFFF) ==> InIntegerRange(target, 0xFFFF_FFFF_FFFF_FFFF);
      }
    }
  }

  /** How a value of the column reads once cast to an accepted type. */
  function Recast(target: DataType, v: Value): Value {
    if target == Interval(MonthDayNano) then AsCalendar(v) else v
  }

  /** Only a length of time too long for 64-bit nanoseconds can fail to convert. */
  predicate Overflows(v: Value) {
    v.Elapsed? && !FitsI64(v.nanos)
  }

  /**
   One more cast. The pruning code compares every target in a nest with the type of the column,
   not with the type of the expression under the cast, so the step may itself be narrowing.
   */
  lemma CastStep(other: OtherCasts, column: DataType, between: DataType, target: DataType, v: Value)
    requires HasType(column, v)
    requires OrderPreservingCast(column, between) && OrderPreservingCast(column, target)
    requires !Overflows(v)
    ensures CastValue(other, between, target, Recast(between, v)) == Val(target, Recast(target, v))
  {
    if between == target {
    } else if IsInteger(column) {
      CastIntegers(other, column, between, target, v);
    } else if column.Float? {
      CastFloats(other, column, between, target, v);
    } else {
      CastDurations(other, column, between, target, v);
    }
  }

  lemma CastIntegers(other: OtherCasts, column: DataType, between: DataType, target: DataType, v: Value)
    requires IsInteger(column) && HasType(column, v) && between != target
    requires OrderPreservingCast(column, between) && OrderPreservingCast(column, target)
    ensures Recast(between, v) == Recast(target, v) == v
    ensures CastValue(other, between, target, v) == Val(target, v)
  {
    IntegersKeepRange(column, between, target, v.n);
  }

  lemma IntegersKeepRange(column: DataType, between: DataType, target: DataType, n: int)
    requires IsInteger(column) && InIntegerRange(column, n)
    requires OrderPreservingCast(column, between) && OrderPreservingCast(column, target)
    ensures IsInteger(between) && IsInteger(target) && InIntegerRange(target, n)
  {}

  lemma CastFloats(other: OtherCasts, column: DataType, between: DataType, target: DataType, v: Value)
    requires column.Float? && HasType(column, v) && between != target
    requires OrderPreservingCast(column, between) && OrderPreservingCast(column, target)
    ensures Recast(between, v) == Recast(target, v) == v
    ensures CastValue(other, between, target, v) == Val(target, v)
  {
    assert between.Float? && target.Float? && Widest(column.width) <= Widest(target.width);
    WideningRepresents(column.width, target.width, v.f);
  }

  lemma CastDurations(other: OtherCasts, column: DataType, between: DataType, target: DataType, v: Value)
    requires !IsInteger(column) && !column.Float? && HasType(column, v) && between != target && !Overflows(v)
    requires OrderPreservingCast(column, between) && OrderPreservingCast(column, target)
    ensures CastValue(other, between, target, Recast(between, v)) == Val(target, Recast(target, v))
  {
    OnlyDurationsChange(column, between, target);
  }

  lemma OnlyDurationsChange(column: DataType, between: DataType, target: DataType)
    requires !IsInteger(column) && !column.Float? && between != target
    requires OrderPreservingCast(column, between) && OrderPreservingCast(column, target)
    ensures column.Duration?
    ensures (between == column && target == Interval(MonthDayNano)) ||
              (between == Interval(MonthDayNano) && target == column)
  {}

  /** The one accepted cast that can fail, a length of time beyond 64-bit nanoseconds, does fail. */
  lemma CastOverflows(other: OtherCasts, column: DataType, target: DataType, v: Value)
    requires HasType(column, v) && OrderPreservingCast(column, target) && Overflows(v) && column != target
    ensures CastValue(other, column, target, v) == Err
  {}
}
