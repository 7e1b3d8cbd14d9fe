/**
 Typed scalars and coordinate bounds, what they denote, and how they are ordered.

 A value denotes a number, an instant or a length of time in nanoseconds, a text, and so on. The
 comparison code works on typed variants instead: integers of either sign and four widths, three
 float widths, four temporal units. The lemmas say it agrees with the order of what is denoted.
 */
module Scalars {
  import opened Wrappers

  type I64 = v: int | -0x8000_0000_0000_0000 <= v < 0x8000_0000_0000_0000
  type U64 = v: int | 0 <= v < 0x1_0000_0000_0000_0000
  const TWO_TO_THE_128: int := 0x1_0000_0000_0000_0000_0000_0000_0000_0000

  predicate FitsI64(v: int) {
    -0x8000_0000_0000_0000 <= v < 0x8000_0000_0000_0000
  }

  // ---------------------------------------------------------------------
  // Types
  // ---------------------------------------------------------------------

  datatype FloatWidth = Half | Single | Double

  datatype TimeUnit = Second | Millisecond | Microsecond | Nanosecond

  datatype IntervalUnit = YearMonth | DayTime | MonthDayNano

  datatype Layout = Plain | View | Large

  datatype DataType =
    | Boolean
    | Int8 | Int16 | Int32 | Int64
    | UInt8 | UInt16 | UInt32 | UInt64
    | Float(width: FloatWidth)
    | Utf8(layout: Layout)
    | Binary(layout: Layout)
    | FixedSizeBinary(size: int)
    | Timestamp(unit: TimeUnit, tz: Option<string>)
    | Duration(unit: TimeUnit)
    | Interval(interval: IntervalUnit)
    | OtherType(id: nat, bytes: Option<nat>)

  function Factor(unit: TimeUnit): int {
    match unit
    case Second => 1_000_000_000
    case Millisecond => 1_000_000
    case Microsecond => 1_000
    case Nanosecond => 1
  }

  // ---------------------------------------------------------------------
  // Values
  // ---------------------------------------------------------------------

  /** A float: a real, the zero with a sign, an infinity, or NaN. */
  datatype Float = Finite(r: real) | NegativeZero | Infinity(negative: bool) | NotANumber {

    /** The number a float stands for: both zeros are zero. */
    function Number(): Float {
      if NegativeZero? then Finite(0.0) else this
    }
  }

  type Bytes = seq<bv8>

  /** What a non-NULL scalar denotes, whatever its width, unit or layout. */
  datatype Value =
    | Truth(b: bool)
    | Number(n: int)
    | Real(f: Float)
    | Text(s: Bytes)
    | Blob(s: Bytes)
    | Instant(nanos: int)
    | Elapsed(nanos: int)
    | Calendar(months: int, days: int, rest: int)

  datatype Ordering = Less | Equal | Greater

  function Reverse(o: Ordering): Ordering {
    match o case Less => Greater case Equal => Equal case Greater => Less
  }

  function CompareInts(a: int, b: int): Ordering {
    if a < b then Less else if a == b then Equal else Greater
  }

  /** Floats compare as the numbers they stand for, and NaN with nothing. */
  function CompareFloats(a: Float, b: Float): Option<Ordering> {
    if a.NotANumber? || b.NotANumber? then None
    else if a.Number() == b.Number() then Some(Equal)
    else
      match (a.Number(), b.Number())
      case (Finite(x), Finite(y)) => Some(if x < y then Less else Greater)
      case (Infinity(negative), _) => Some(if negative then Less else Greater)
      case (_, Infinity(negative)) => Some(if negative then Greater else Less)
  }

  /** Lexicographic order of byte strings. */
  function CompareBytes(a: Bytes, b: Bytes): Ordering {
    if a == [] && b == [] then Equal
    else if a == [] then Less
    else if b == [] then Greater
    else if a[0] < b[0] then Less
    else if a[0] > b[0] then Greater
    else CompareBytes(a[1..], b[1..])
  }

  function CompareCalendars(a: Value, b: Value): Ordering
    requires a.Calendar? && b.Calendar?
  {
    if a.months != b.months then CompareInts(a.months, b.months)
    else if a.days != b.days then CompareInts(a.days, b.days)
    else CompareInts(a.rest, b.rest)
  }

  /** The order of values of one kind; values of different kinds and NaN are unordered. */
  function Order(a: Value, b: Value): Option<Ordering> {
    match (a, b)
    case (Truth(x), Truth(y)) => Some(if x == y then Equal else if y then Less else Greater)
    case (Number(x), Number(y)) => Some(CompareInts(x, y))
    case (Real(x), Real(y)) => CompareFloats(x, y)
    case (Text(x), Text(y)) => Some(CompareBytes(x, y))
    case (Blob(x), Blob(y)) => Some(CompareBytes(x, y))
    case (Instant(x), Instant(y)) => Some(CompareInts(x, y))
    case (Elapsed(x), Elapsed(y)) => Some(CompareInts(x, y))
    case (Calendar(_, _, _), Calendar(_, _, _)) => Some(CompareCalendars(a, b))
    case _ => None
  }

  predicate AtMost(a: Value, b: Value) {
    Order(a, b) == Some(Less) || Order(a, b) == Some(Equal)
  }

  lemma {:induction false} BytesEqual(a: Bytes, b: Bytes)
    ensures CompareBytes(a, b) == Equal <==> a == b
    ensures CompareBytes(b, a) == Reverse(CompareBytes(a, b))
  {
    if a != [] && b != [] {
      BytesEqual(a[1..], b[1..]);
      assert a == [a[0]] + a[1..] && b == [b[0]] + b[1..];
    }
  }

  lemma {:induction false} BytesTransitive(a: Bytes, b: Bytes, c: Bytes)
    requires CompareBytes(a, b) == Less && CompareBytes(b, c) == Less
    ensures CompareBytes(a, c) == Less
  {
    if a != [] && b != [] && c != [] && a[0] == b[0] == c[0] {
      BytesTransitive(a[1..], b[1..], c[1..]);
    }
  }

  /** The same value, but for the sign of a zero. */
  predicate Alike(a: Value, b: Value) {
    a == b || (a.Real? && b.Real? && a.f.Number() == b.f.Number())
  }

  /** Comparable values are alike exactly when they compare as equal, and the order is antisymmetric. */
  lemma OrderEqual(a: Value, b: Value)
    ensures Order(a, b).Some? ==> (Order(a, b).value == Equal <==> Alike(a, b))
    ensures Order(b, a).Some? == Order(a, b).Some?
    ensures Order(a, b).Some? ==> Order(b, a).value == Reverse(Order(a, b).value)
  {
    if (a.Text? && b.Text?) || (a.Blob? && b.Blob?) {
      BytesEqual(a.s, b.s);
    }
  }

  /** The order is transitive, and strict as soon as one step is. */
  lemma OrderTransitive(a: Value, b: Value, c: Value)
    requires AtMost(a, b) && Order(b, c).Some?
    ensures Order(a, c).Some?
    ensures Order(b, c) == Some(Less) ==> Order(a, c) == Some(Less)
    ensures Order(b, c) == Some(Equal) ==> AtMost(a, c)
    ensures Order(a, c) == Some(Greater) ==> Order(b, c) == Some(Greater)
    ensures Order(a, c) == Some(Equal) ==> AtMost(c, b)
  {
    OrderEqual(a, b);
    OrderEqual(b, c);
    OrderEqual(a, c);
    if Order(a, b) == Some(Less) && Order(b, c) == Some(Less) {
      if (a.Text? && b.Text?) || (a.Blob? && b.Blob?) {
        BytesTransitive(a.s, b.s, c.s);
      }
    }
  }

  // ---------------------------------------------------------------------
  // Typed scalars and bounds
  // ---------------------------------------------------------------------

  datatype ScalarValue =
    | NullScalar(dtype: DataType)
    | BooleanScalar(b: bool)
    | Int8Scalar(v: I64) | Int16Scalar(v: I64) | Int32Scalar(v: I64) | Int64Scalar(v: I64)
    | UInt8Scalar(u: U64) | UInt16Scalar(u: U64) | UInt32Scalar(u: U64) | UInt64Scalar(u: U64)
    | FloatScalar(width: FloatWidth, f: Float)
    | Utf8Scalar(layout: Layout, s: Bytes)
    | BinaryScalar(layout: Layout, s: Bytes)
    | FixedSizeBinaryScalar(size: int, s: Bytes)
    | TimestampScalar(unit: TimeUnit, ticks: I64, tz: Option<string>)
    | DurationScalar(unit: TimeUnit, ticks: I64)
    | IntervalScalar(months: int, days: int, nanos: I64)

  function TypeOf(s: ScalarValue): DataType {
    match s
    case NullScalar(dtype) => dtype
    case BooleanScalar(_) => Boolean
    case Int8Scalar(_) => Int8
    case Int16Scalar(_) => Int16
    case Int32Scalar(_) => Int32
    case Int64Scalar(_) => Int64
    case UInt8Scalar(_) => UInt8
    case UInt16Scalar(_) => UInt16
    case UInt32Scalar(_) => UInt32
    case UInt64Scalar(_) => UInt64
    case FloatScalar(width, _) => Float(width)
    case Utf8Scalar(layout, _) => Utf8(layout)
    case BinaryScalar(layout, _) => Binary(layout)
    case FixedSizeBinaryScalar(size, _) => FixedSizeBinary(size)
    case TimestampScalar(unit, _, tz) => Timestamp(unit, tz)
    case DurationScalar(unit, _) => Duration(unit)
    case IntervalScalar(_, _, _) => Interval(MonthDayNano)
  }

  function Denote(s: ScalarValue): Option<Value> {
    match s
    case NullScalar(_) => None
    case BooleanScalar(b) => Some(Truth(b))
    case Int8Scalar(v) => Some(Number(v))
    case Int16Scalar(v) => Some(Number(v))
    case Int32Scalar(v) => Some(Number(v))
    case Int64Scalar(v) => Some(Number(v))
    case UInt8Scalar(u) => Some(Number(u))
    case UInt16Scalar(u) => Some(Number(u))
    case UInt32Scalar(u) => Some(Number(u))
    case UInt64Scalar(u) => Some(Number(u))
    case FloatScalar(_, f) => Some(Real(f))
    case Utf8Scalar(_, s) => Some(Text(s))
    case BinaryScalar(_, s) => Some(Blob(s))
    case FixedSizeBinaryScalar(_, s) => Some(Blob(s))
    case TimestampScalar(unit, ticks, _) => Some(Instant(ticks * Factor(unit)))
    case DurationScalar(unit, ticks) => Some(Elapsed(ticks * Factor(unit)))
    case IntervalScalar(months, days, nanos) => Some(Calendar(months, days, nanos))
  }

  datatype ScalarBound =
    | BooleanBound(b: bool)
    | Int8Bound(v: I64) | Int16Bound(v: I64) | Int32Bound(v: I64) | Int64Bound(v: I64)
    | UInt8Bound(u: U64) | UInt16Bound(u: U64) | UInt32Bound(u: U64) | UInt64Bound(u: U64)
    | FloatBound(width: FloatWidth, f: Float)
    | Utf8Bound(s: Bytes)
    | BinaryBound(s: Bytes)
    | TimestampBound(unit: TimeUnit, ticks: I64)
    | DurationBound(unit: TimeUnit, ticks: I64)

  function BoundValue(b: ScalarBound): Value {
    match b
    case BooleanBound(b) => Truth(b)
    case Int8Bound(v) => Number(v)
    case Int16Bound(v) => Number(v)
    case Int32Bound(v) => Number(v)
    case Int64Bound(v) => Number(v)
    case UInt8Bound(u) => Number(u)
    case UInt16Bound(u) => Number(u)
    case UInt32Bound(u) => Number(u)
    case UInt64Bound(u) => Number(u)
    case FloatBound(_, f) => Real(f)
    case Utf8Bound(s) => Text(s)
    case BinaryBound(s) => Blob(s)
    case TimestampBound(unit, ticks) => Instant(ticks * Factor(unit))
    case DurationBound(unit, ticks) => Elapsed(ticks * Factor(unit))
  }

  // ---------------------------------------------------------------------
  // The comparison code
  // ---------------------------------------------------------------------

  /** A 128-bit integer, signed or not. */
  datatype IntegerBound = Signed(i: int) | Unsigned(u: int) {

    predicate Valid() {
      match this
      case Signed(i) => -TWO_TO_THE_128 <= 2 * i < TWO_TO_THE_128
      case Unsigned(u) => 0 <= u < TWO_TO_THE_128
    }

    function Int(): int {
      match this case Signed(i) => i case Unsigned(u) => u
    }
  }

  /** Reinterpreting a 128-bit integer as unsigned wraps. */
  function AsU128(i: int): int {
    i % TWO_TO_THE_128
  }

  function CompareIntegers(a: IntegerBound, b: IntegerBound): Ordering {
    match (a, b)
    case (Signed(x), Signed(y)) => CompareInts(x, y)
    case (Unsigned(x), Unsigned(y)) => CompareInts(x, y)
    case (Signed(x), Unsigned(y)) => if x < 0 then Less else CompareInts(AsU128(x), y)
    case (Unsigned(x), Signed(y)) => if y < 0 then Greater else CompareInts(x, AsU128(y))
  }

  /** Across signs and widths, the comparison is the order of the integers. */
  lemma CompareIntegersExact(a: IntegerBound, b: IntegerBound)
    requires a.Valid() && b.Valid()
    ensures CompareIntegers(a, b) == CompareInts(a.Int(), b.Int())
  {}

  function IntegerOfBound(b: ScalarBound): Option<IntegerBound> {
    match b
    case Int8Bound(v) => Some(Signed(v))
    case Int16Bound(v) => Some(Signed(v))
    case Int32Bound(v) => Some(Signed(v))
    case Int64Bound(v) => Some(Signed(v))
    case UInt8Bound(u) => Some(Unsigned(u))
    case UInt16Bound(u) => Some(Unsigned(u))
    case UInt32Bound(u) => Some(Unsigned(u))
    case UInt64Bound(u) => Some(Unsigned(u))
    case _ => None
  }

  function IntegerOfScalar(s: ScalarValue): Option<IntegerBound> {
    match s
    case Int8Scalar(v) => Some(Signed(v))
    case Int16Scalar(v) => Some(Signed(v))
    case Int32Scalar(v) => Some(Signed(v))
    case Int64Scalar(v) => Some(Signed(v))
    case UInt8Scalar(u) => Some(Unsigned(u))
    case UInt16Scalar(u) => Some(Unsigned(u))
    case UInt32Scalar(u) => Some(Unsigned(u))
    case UInt64Scalar(u) => Some(Unsigned(u))
    case _ => None
  }

  function FloatOfBound(b: ScalarBound): Option<Float> {
    if b.FloatBound? then Some(b.f) else None
  }

  function FloatOfScalar(s: ScalarValue): Option<Float> {
    if s.FloatScalar? then Some(s.f) else None
  }

  /** Ticks of any unit as nanoseconds, which a 128-bit integer always holds. */
  function TemporalNanos(ticks: I64, unit: TimeUnit): (nanos: int)
    ensures -TWO_TO_THE_128 <= 2 * nanos < TWO_TO_THE_128
    ensures nanos % Factor(unit) == 0 && nanos / Factor(unit) == ticks
  {
    ticks * Factor(unit)
  }

  function TimestampOfBound(b: ScalarBound): Option<int> {
    if b.TimestampBound? then Some(TemporalNanos(b.ticks, b.unit)) else None
  }

  function TimestampOfScalar(s: ScalarValue): Option<int> {
    if s.TimestampScalar? then Some(TemporalNanos(s.ticks, s.unit)) else None
  }

  function DurationOfBound(b: ScalarBound): Option<int> {
    if b.DurationBound? then Some(TemporalNanos(b.ticks, b.unit)) else None
  }

  function DurationOfScalar(s: ScalarValue): Option<int> {
    if s.DurationScalar? then Some(TemporalNanos(s.ticks, s.unit)) else None
  }

  function CompareToScalar(b: ScalarBound, s: ScalarValue): Option<Ordering> {
    if IntegerOfBound(b).Some? && IntegerOfScalar(s).Some? then
      Some(CompareIntegers(IntegerOfBound(b).value, IntegerOfScalar(s).value))
    else if FloatOfBound(b).Some? && FloatOfScalar(s).Some? then
      CompareFloats(FloatOfBound(b).value, FloatOfScalar(s).value)
    else if TimestampOfBound(b).Some? && TimestampOfScalar(s).Some? then
      Some(CompareInts(TimestampOfBound(b).value, TimestampOfScalar(s).value))
    else if DurationOfBound(b).Some? && s.IntervalScalar? then
      if s.months != 0 then None
      else if !FitsI64(DurationOfBound(b).value) then None
      else Some(CompareCalendars(Calendar(0, 0, DurationOfBound(b).value), Calendar(s.months, s.days, s.nanos)))
    else if DurationOfBound(b).Some? && DurationOfScalar(s).Some? then
      Some(CompareInts(DurationOfBound(b).value, DurationOfScalar(s).value))
    else
      match (b, s)
      case (BooleanBound(x), BooleanScalar(y)) => Order(Truth(x), Truth(y))
      case (Utf8Bound(x), Utf8Scalar(_, y)) => Some(CompareBytes(x, y))
      case (BinaryBound(x), BinaryScalar(_, y)) => Some(CompareBytes(x, y))
      case (BinaryBound(x), FixedSizeBinaryScalar(_, y)) => Some(CompareBytes(x, y))
      case _ => None
  }

  function CompareToBound(a: ScalarBound, b: ScalarBound): Option<Ordering> {
    if IntegerOfBound(a).Some? && IntegerOfBound(b).Some? then
      Some(CompareIntegers(IntegerOfBound(a).value, IntegerOfBound(b).value))
    else if FloatOfBound(a).Some? && FloatOfBound(b).Some? then
      CompareFloats(FloatOfBound(a).value, FloatOfBound(b).value)
    else if TimestampOfBound(a).Some? && TimestampOfBound(b).Some? then
      Some(CompareInts(TimestampOfBound(a).value, TimestampOfBound(b).value))
    else if DurationOfBound(a).Some? && DurationOfBound(b).Some? then
      Some(CompareInts(DurationOfBound(a).value, DurationOfBound(b).value))
    else
      match (a, b)
      case (BooleanBound(x), BooleanBound(y)) => Order(Truth(x), Truth(y))
      case (Utf8Bound(x), Utf8Bound(y)) => Some(CompareBytes(x, y))
      case (BinaryBound(x), BinaryBound(y)) => Some(CompareBytes(x, y))
      case _ => None
  }

  /** A duration seen as a month-free interval. */
  function AsCalendar(v: Value): Value {
    if v.Elapsed? then Calendar(0, 0, v.nanos) else v
  }

  /**
   Whatever the widths, signs and units, an answer is the order of the denoted values, with a
   duration compared to an interval as the interval of that many nanoseconds.
   */
  lemma CompareToScalarExact(b: ScalarBound, s: ScalarValue)
    requires CompareToScalar(b, s).Some?
    ensures Denote(s).Some?
    ensures var v := if s.IntervalScalar? then AsCalendar(BoundValue(b)) else BoundValue(b);
            CompareToScalar(b, s) == Order(v, Denote(s).value)
  {
    if IntegerOfBound(b).Some? && IntegerOfScalar(s).Some? {
      CompareIntegersExact(IntegerOfBound(b).value, IntegerOfScalar(s).value);
    }
  }

  /** There is an answer for every pair of one kind, except NaN, and for no other pair but duration and interval. */
  lemma CompareToScalarTotal(b: ScalarBound, s: ScalarValue)
    requires !s.IntervalScalar? && Denote(s).Some?
    ensures CompareToScalar(b, s) == Order(BoundValue(b), Denote(s).value)
  {
    if IntegerOfBound(b).Some? && IntegerOfScalar(s).Some? {
      CompareIntegersExact(IntegerOfBound(b).value, IntegerOfScalar(s).value);
    }
  }

  /** Bounds compare as the values they denote, whatever their variants. */
  lemma CompareToBoundExact(a: ScalarBound, b: ScalarBound)
    ensures CompareToBound(a, b) == Order(BoundValue(a), BoundValue(b))
  {
    if IntegerOfBound(a).Some? && IntegerOfBound(b).Some? {
      CompareIntegersExact(IntegerOfBound(a).value, IntegerOfBound(b).value);
    }
  }

  // ---------------------------------------------------------------------
  // What the order means
  // ---------------------------------------------------------------------

  /** The strings agree up to `k`, where `b` goes on and `a` ends or has a smaller byte. */
  ghost predicate PrecedesAt(a: Bytes, b: Bytes, k: nat) {
    && k <= |a| && k < |b| && (forall i :: 0 <= i < k ==> a[i] == b[i])
    && (k < |a| ==> a[k] < b[k])
  }

  ghost predicate Precedes(a: Bytes, b: Bytes) {
    exists k: nat :: PrecedesAt(a, b, k)
  }

  lemma PrecedesLater(a: Bytes, b: Bytes, k: nat)
    requires a != [] && b != [] && a[0] == b[0]
    ensures PrecedesAt(a, b, k + 1) <==> PrecedesAt(a[1..], b[1..], k)
  {
    if PrecedesAt(a, b, k + 1) {
      forall i | 0 <= i < k ensures a[1..][i] == b[1..][i] { assert a[i + 1] == b[i + 1]; }
    }
    if PrecedesAt(a[1..], b[1..], k) {
      forall i | 0 <= i < k + 1 ensures a[i] == b[i] {
        if i > 0 { assert a[1..][i - 1] == b[1..][i - 1]; }
      }
    }
  }

  /** Less at the first difference if a smaller byte is there or the string ends, and only then. */
  lemma {:induction false} BytesMeaning(a: Bytes, b: Bytes)
    ensures CompareBytes(a, b) == Less <==> Precedes(a, b)
  {
    if a == [] || b == [] || a[0] != b[0] {
      if CompareBytes(a, b) == Less { assert PrecedesAt(a, b, 0); }
    } else {
      BytesMeaning(a[1..], b[1..]);
      if Precedes(a[1..], b[1..]) {
        var k: nat :| PrecedesAt(a[1..], b[1..], k);
        PrecedesLater(a, b, k);
      }
      if Precedes(a, b) {
        var k: nat :| PrecedesAt(a, b, k);
        PrecedesLater(a, b, k - 1);
      }
    }
  }

  /** One float lies below another: a smaller real, or an infinity on that side. */
  predicate FloatBelow(a: Float, b: Float) {
    match (a.Number(), b.Number())
    case (Finite(x), Finite(y)) => x < y
    case (Infinity(low), Finite(_)) => low
    case (Finite(_), Infinity(low)) => !low
    case (Infinity(low), Infinity(alsoLow)) => low && !alsoLow
    case _ => false
  }

  /** One value lies below another of its kind. */
  ghost predicate Under(a: Value, b: Value) {
    match (a, b)
    case (Truth(x), Truth(y)) => !x && y
    case (Number(x), Number(y)) => x < y
    case (Real(x), Real(y)) => FloatBelow(x, y)
    case (Text(x), Text(y)) => Precedes(x, y)
    case (Blob(x), Blob(y)) => Precedes(x, y)
    case (Instant(x), Instant(y)) => x < y
    case (Elapsed(x), Elapsed(y)) => x < y
    case (Calendar(m, d, r), Calendar(n, e, q)) => m < n || (m == n && (d < e || (d == e && r < q)))
    case _ => false
  }

  predicate SameKind(a: Value, b: Value) {
    match (a, b)
    case (Truth(_), Truth(_)) => true
    case (Number(_), Number(_)) => true
    case (Real(x), Real(y)) => !x.NotANumber? && !y.NotANumber?
    case (Text(_), Text(_)) => true
    case (Blob(_), Blob(_)) => true
    case (Instant(_), Instant(_)) => true
    case (Elapsed(_), Elapsed(_)) => true
    case (Calendar(_, _, _), Calendar(_, _, _)) => true
    case _ => false
  }

  /** Values of one kind are ordered as the numbers, strings, times and truth values they are, and others are not. */
  lemma OrderMeaning(a: Value, b: Value)
    ensures Order(a, b).Some? <==> SameKind(a, b)
    ensures Order(a, b) == Some(Less) <==> Under(a, b)
    ensures Order(a, b) == Some(Greater) <==> Under(b, a)
    ensures Order(a, b) == Some(Equal) <==> SameKind(a, b) && Alike(a, b)
    ensures AtMost(a, b) <==> SameKind(a, b) && !Under(b, a)
  {
    OrderEqual(a, b);
    if (a.Text? && b.Text?) || (a.Blob? && b.Blob?) {
      BytesMeaning(a.s, b.s);
      BytesMeaning(b.s, a.s);
    }
  }

  /** Two finite bounds and scalars compare as the reals they are, whatever their widths. */
  lemma FloatsCompare(x: real, y: real, v: FloatWidth, w: FloatWidth)
    ensures CompareToScalar(FloatBound(v, Finite(x)), FloatScalar(w, Finite(y)))
         == Some(if x < y then Less else if x == y then Equal else Greater)
    ensures CompareToBound(FloatBound(v, Finite(x)), FloatBound(w, Finite(y)))
         == Some(if x < y then Less else if x == y then Equal else Greater)
    ensures CompareToBound(FloatBound(v, NegativeZero), FloatBound(w, Finite(y)))
         == Some(if 0.0 < y then Less else if 0.0 == y then Equal else Greater)
    ensures CompareToBound(FloatBound(v, Infinity(true)), FloatBound(w, Finite(y))) == Some(Less)
    ensures CompareToBound(FloatBound(v, Infinity(false)), FloatBound(w, Finite(y))) == Some(Greater)
  {}

  /** The next coarser unit, of which this one is a thousandth. */
  function Coarser(unit: TimeUnit): Option<TimeUnit> {
    match unit
    case Second => None
    case Millisecond => Some(Second)
    case Microsecond => Some(Millisecond)
    case Nanosecond => Some(Microsecond)
  }

  /** A tick of a unit is a thousand ticks of the next finer one, for timestamps and for durations. */
  lemma ThousandTicks(fine: TimeUnit, a: I64, b: I64, tz: Option<string>)
    requires Coarser(fine).Some?
    ensures var coarse := Coarser(fine).value;
            var order := Some(if 1000 * a < b then Less else if 1000 * a == b then Equal else Greater);
            && CompareToScalar(TimestampBound(coarse, a), TimestampScalar(fine, b, tz)) == order
            && CompareToScalar(DurationBound(coarse, a), DurationScalar(fine, b)) == order
            && CompareToBound(TimestampBound(coarse, a), TimestampBound(fine, b)) == order
            && CompareToBound(DurationBound(coarse, a), DurationBound(fine, b)) == order
  {}

  /** And a tick of the finest unit is a nanosecond, which is what intervals count in. */
  lemma NanosecondTicks(n: I64, q: I64, tz: Option<string>)
    ensures CompareToScalar(DurationBound(Nanosecond, n), IntervalScalar(0, 0, q))
         == Some(if n < q then Less else if n == q then Equal else Greater)
    ensures Denote(TimestampScalar(Nanosecond, n, tz)) == Some(Instant(n))
    ensures Denote(DurationScalar(Nanosecond, n)) == Some(Elapsed(n))
    ensures BoundValue(TimestampBound(Nanosecond, n)) == Instant(n)
    ensures BoundValue(DurationBound(Nanosecond, n)) == Elapsed(n)
  {}
}
