/**
 Partition pruning: an abstract interpreter that decides, from the coordinate ranges of a
 partition, that no row of it can satisfy a filter. Filters are expression trees with SQL's
 three-valued logic, in which casts may also fail.
 */
module Pruning {
  import opened Casts
  import opened Scalars
  import opened Wrappers

  datatype Operator = And | Or | Eq | NotEq | Lt | LtEq | Gt | GtEq | OtherOperator(id: nat)

  datatype Expr =
    | Column(name: string)
    | Literal(scalar: ScalarValue)
    | Cast(expr: Expr, target: DataType)
    | TryCast(expr: Expr, target: DataType)
    | BinaryExpr(left: Expr, op: Operator, right: Expr)
    | Not(expr: Expr)
    | IsTrue(expr: Expr) | IsFalse(expr: Expr) | IsNotTrue(expr: Expr) | IsNotFalse(expr: Expr)
    | Between(expr: Expr, low: Expr, high: Expr, negated: bool)
    | InList(expr: Expr, list: seq<Expr>, negated: bool)
    | Other(id: nat)

  // ---------------------------------------------------------------------
  // Meaning of filters on rows
  // ---------------------------------------------------------------------

  /** The non-NULL columns of a row. */
  type Row = map<string, Value>

  type Schema = map<string, DataType>

  /**
   The parts of the query engine that pruning must be correct for, whatever they do. An engine may
   order floats by their bits, so that the negative zero comes before the other one.
   */
  datatype Engine = Engine(
    separatesZeros: bool,
    cast: OtherCasts,
    compare: (Operator, Value, Value) -> Outcome,
    other: (nat, Row) -> Outcome)

  function Bool(b: bool): Outcome {
    Val(Boolean, Truth(b))
  }

  predicate IsBool(o: Outcome, b: bool) {
    o.Val? && o.v == Truth(b)
  }

  predicate Satisfies(op: Operator, o: Ordering) {
    match op
    case Eq => o == Equal
    case NotEq => o != Equal
    case Lt => o == Less
    case LtEq => o != Greater
    case Gt => o == Greater
    case GtEq => o != Less
    case _ => false
  }

  predicate IsComparison(op: Operator) {
    !op.And? && !op.Or? && !op.OtherOperator?
  }

  predicate IsZero(v: Value) {
    v.Real? && v.f.Number() == Finite(0.0)
  }

  /** The order the engine compares by: that of the values, but for zeros of different sign. */
  function EngineOrder(engine: Engine, a: Value, b: Value): Option<Ordering> {
    if engine.separatesZeros && IsZero(a) && IsZero(b) && a != b then
      Some(if a == Real(NegativeZero) then Less else Greater)
    else Order(a, b)
  }

  /** Comparing two values: a duration against an interval is first converted to an interval. */
  function CompareValues(engine: Engine, op: Operator, a: Value, b: Value): Outcome {
    var x := if b.Calendar? then AsCalendar(a) else a;
    var y := if a.Calendar? then AsCalendar(b) else b;
    if (x != a && Overflows(a)) || (y != b && Overflows(b)) then Err
    else if IsComparison(op) && EngineOrder(engine, x, y).Some? then
      Bool(Satisfies(op, EngineOrder(engine, x, y).value))
    else engine.compare(op, x, y)
  }

  function Compare(engine: Engine, op: Operator, a: Outcome, b: Outcome): Outcome {
    if a.Err? || b.Err? then Err
    else if a.Null? || b.Null? then Null
    else CompareValues(engine, op, a.v, b.v)
  }

  function NotOutcome(a: Outcome): Outcome {
    if a.Val? then (if a.v.Truth? then Bool(!a.v.b) else Err) else a
  }

  /** Conjunction; a FALSE left side decides it. */
  function AndOutcome(a: Outcome, b: Outcome): Outcome {
    if IsBool(a, false) then Bool(false)
    else if a.Err? || b.Err? then Err
    else if IsBool(b, false) then Bool(false)
    else if a.Null? || b.Null? then Null
    else if IsBool(a, true) && IsBool(b, true) then Bool(true)
    else Err
  }

  function OrOutcome(a: Outcome, b: Outcome): Outcome {
    NotOutcome(AndOutcome(NotOutcome(a), NotOutcome(b)))
  }

  /** `x IN (...)`: the disjunction of equalities with the elements. */
  function AnyEqual(engine: Engine, x: Outcome, list: seq<Outcome>): Outcome {
    if list == [] then Bool(false)
    else OrOutcome(AnyEqual(engine, x, list[..|list| - 1]), Compare(engine, Eq, x, list[|list| - 1]))
  }

  function Negated(negated: bool, o: Outcome): Outcome {
    if negated then NotOutcome(o) else o
  }

  function IsTest(o: Outcome, b: bool, expected: bool): Outcome {
    if o.Err? then Err else Bool(IsBool(o, b) == expected)
  }

  /** The connectives are SQL's on truth values and NULL; errors pass through unless a FALSE on the left decides. */
  lemma ThreeValued(p: bool, q: bool)
    ensures NotOutcome(Bool(p)) == Bool(!p) && NotOutcome(Null) == Null && NotOutcome(Err) == Err
    ensures AndOutcome(Bool(p), Bool(q)) == Bool(p && q) && OrOutcome(Bool(p), Bool(q)) == Bool(p || q)
    ensures AndOutcome(Null, Bool(p)) == AndOutcome(Bool(p), Null) == if p then Null else Bool(false)
    ensures OrOutcome(Null, Bool(p)) == OrOutcome(Bool(p), Null) == if p then Bool(true) else Null
    ensures AndOutcome(Null, Null) == Null && OrOutcome(Null, Null) == Null
    ensures IsTest(Bool(p), q, true) == Bool(p == q) && IsTest(Bool(p), q, false) == Bool(p != q)
    ensures IsTest(Null, q, true) == Bool(false) && IsTest(Null, q, false) == Bool(true) && IsTest(Err, p, q) == Err
    ensures AndOutcome(Bool(p), Err) == (if p then Err else Bool(false)) && AndOutcome(Null, Err) == Err
    ensures AndOutcome(Err, Bool(p)) == AndOutcome(Err, Null) == Err
  {}

  /** A duration compares with an interval, on either side, exactly when it fits 64-bit nanoseconds. */
  lemma DurationConverts(engine: Engine, op: Operator, n: int, months: int, days: int, nanos: int)
    requires IsComparison(op)
    ensures CompareValues(engine, op, Elapsed(n), Calendar(months, days, nanos)) == Err <==> !FitsI64(n)
    ensures CompareValues(engine, op, Calendar(months, days, nanos), Elapsed(n)) == Err <==> !FitsI64(n)
  {}

  ghost function Eval(engine: Engine, schema: Schema, e: Expr, row: Row): Outcome {
    match e
    case Column(c) => if c !in schema then Err else if c in row then Val(schema[c], row[c]) else Null
    case Literal(s) => if Denote(s).Some? then Val(TypeOf(s), Denote(s).value) else Null
    case Cast(x, target) => CastOutcome(engine.cast, Eval(engine, schema, x, row), target, false)
    case TryCast(x, target) => CastOutcome(engine.cast, Eval(engine, schema, x, row), target, true)
    case BinaryExpr(l, op, r) =>
      var a := Eval(engine, schema, l, row);
      var b := Eval(engine, schema, r, row);
      if op.And? then AndOutcome(a, b) else if op.Or? then OrOutcome(a, b) else Compare(engine, op, a, b)
    case Not(x) => NotOutcome(Eval(engine, schema, x, row))
    case IsTrue(x) => IsTest(Eval(engine, schema, x, row), true, true)
    case IsFalse(x) => IsTest(Eval(engine, schema, x, row), false, true)
    case IsNotTrue(x) => IsTest(Eval(engine, schema, x, row), true, false)
    case IsNotFalse(x) => IsTest(Eval(engine, schema, x, row), false, false)
    case Between(x, low, high, negated) =>
      var a := Eval(engine, schema, x, row);
      Negated(negated, AndOutcome(
        Compare(engine, GtEq, a, Eval(engine, schema, low, row)),
        Compare(engine, LtEq, a, Eval(engine, schema, high, row))))
    case InList(x, list, negated) =>
      Negated(negated, AnyEqual(engine, Eval(engine, schema, x, row),
        seq(|list|, i requires 0 <= i < |list| => Eval(engine, schema, list[i], row))))
    case Other(id) => engine.other(id, row)
  }

  /** A left side that decides a connective hides any error of the right one. */
  lemma LeftDecides(engine: Engine, schema: Schema, l: Expr, r: Expr, row: Row)
    ensures IsBool(Eval(engine, schema, l, row), false) ==>
              Eval(engine, schema, BinaryExpr(l, And, r), row) == Bool(false)
    ensures IsBool(Eval(engine, schema, l, row), true) ==>
              Eval(engine, schema, BinaryExpr(l, Or, r), row) == Bool(true)
  {}

  /** On a truth value the four tests are that value or its opposite; on NULL the positive ones are FALSE. */
  lemma TestsMeaning(engine: Engine, schema: Schema, x: Expr, row: Row, b: bool)
    ensures Eval(engine, schema, x, row) == Bool(b) ==>
              && Eval(engine, schema, IsTrue(x), row) == Eval(engine, schema, IsNotFalse(x), row) == Bool(b)
              && Eval(engine, schema, IsFalse(x), row) == Eval(engine, schema, IsNotTrue(x), row) == Bool(!b)
    ensures Eval(engine, schema, x, row) == Null ==>
              && Eval(engine, schema, IsTrue(x), row) == Eval(engine, schema, IsFalse(x), row) == Bool(false)
              && Eval(engine, schema, IsNotTrue(x), row) == Eval(engine, schema, IsNotFalse(x), row) == Bool(true)
  {}

  /** An attempted cast differs from a cast only where that fails, and is NULL there. */
  lemma AttemptIsNull(engine: Engine, schema: Schema, x: Expr, target: DataType, row: Row)
    ensures var cast, attempt :=
              Eval(engine, schema, Cast(x, target), row), Eval(engine, schema, TryCast(x, target), row);
            attempt == if cast.Err? && !Eval(engine, schema, x, row).Err? then Null else cast
  {}

  // ---------------------------------------------------------------------
  // Partitions
  // ---------------------------------------------------------------------

  datatype DimensionRange = DimensionRange(min: ScalarBound, max: ScalarBound)

  datatype PartitionMetadata = PartitionMetadata(ranges: map<string, DimensionRange>, numRows: nat)

  predicate InRange(range: DimensionRange, v: Value) {
    AtMost(BoundValue(range.min), v) && AtMost(v, BoundValue(range.max))
  }

  /** A row of a partition: every column with a range is non-NULL, of its type, and in the range. */
  ghost predicate RowIn(schema: Schema, meta: PartitionMetadata, row: Row) {
    forall c :: c in meta.ranges ==>
      c in schema && c in row && HasType(schema[c], row[c]) && InRange(meta.ranges[c], row[c])
  }

  datatype Table = Table(schema: Schema, metas: seq<PartitionMetadata>) {

    /** Columns of the first partition that has any range; the partitions are assumed alike. */
    function DimensionColumns(): set<string> {
      FirstRanges(metas)
    }
  }

  function FirstRanges(metas: seq<PartitionMetadata>): set<string> {
    if metas == [] then {}
    else if metas[0].ranges != map[] then metas[0].ranges.Keys
    else FirstRanges(metas[1..])
  }

  // ---------------------------------------------------------------------
  // The interpreter
  // ---------------------------------------------------------------------

  /** The dimension column behind an order-preserving nest of casts. */
  function PruningColumnName(t: Table, e: Expr): Option<string> {
    match e
    case Column(c) => if c in t.DimensionColumns() then Some(c) else None
    case Cast(x, target) => LookThrough(t, PruningColumnName(t, x), target)
    case TryCast(x, target) => LookThrough(t, PruningColumnName(t, x), target)
    case _ => None
  }

  function LookThrough(t: Table, column: Option<string>, target: DataType): Option<string> {
    if column.None? || column.value !in t.schema then None
    else if OrderPreservingCast(t.schema[column.value], target) then column
    else None
  }

  /** The expression is the column under casts, attempted or not, to types that keep its order. */
  predicate IsNestOver(t: Table, e: Expr, c: string) {
    match e
    case Column(name) => name == c
    case Cast(x, target) => IsNestOver(t, x, c) && c in t.schema && OrderPreservingCast(t.schema[c], target)
    case TryCast(x, target) => IsNestOver(t, x, c) && c in t.schema && OrderPreservingCast(t.schema[c], target)
    case _ => false
  }

  /** Such nests over dimension columns are looked through, and nothing else is. */
  lemma {:induction false} NestsLookedThrough(t: Table, e: Expr, c: string)
    ensures PruningColumnName(t, e) == Some(c) <==> c in t.DimensionColumns() && IsNestOver(t, e, c)
  {
    match e
    case Cast(x, _) => NestsLookedThrough(t, x, c);
    case TryCast(x, _) => NestsLookedThrough(t, x, c);
    case _ =>
  }

  predicate RangeCanCompareScalar(range: DimensionRange, s: ScalarValue) {
    if !s.IntervalScalar? then true
    else if s.months != 0 then false
    else if DurationOfBound(range.min).Some? && DurationOfBound(range.max).Some? then
      FitsI64(DurationOfBound(range.min).value) && FitsI64(DurationOfBound(range.max).value)
    else true
  }

  function FlipOperator(op: Operator): Operator {
    match op
    case Lt => Gt
    case LtEq => GtEq
    case Gt => Lt
    case GtEq => LtEq
    case _ => op
  }

  /** Whether no value of the range can stand in the relation `op` to the scalar. */
  predicate RangeExcludes(range: DimensionRange, op: Operator, s: ScalarValue) {
    match op
    case Gt => CompareToScalar(range.max, s) in {Some(Less), Some(Equal)}
    case GtEq => CompareToScalar(range.max, s) == Some(Less)
    case Lt => CompareToScalar(range.min, s) in {Some(Greater), Some(Equal)}
    case LtEq => CompareToScalar(range.min, s) == Some(Greater)
    case Eq => CompareToScalar(range.min, s) == Some(Greater) || CompareToScalar(range.max, s) == Some(Less)
    case NotEq => CompareToScalar(range.min, s) == Some(Equal) && CompareToScalar(range.max, s) == Some(Equal)
    case _ => false
  }

  function GetRange(meta: PartitionMetadata, c: Option<string>): Option<DimensionRange> {
    if c.Some? && c.value in meta.ranges then Some(meta.ranges[c.value]) else None
  }

  predicate ComparisonExcludes(t: Table, left: Expr, op: Operator, right: Expr, meta: PartitionMetadata) {
    if PruningColumnName(t, left).Some? && right.Literal? then
      var range := GetRange(meta, PruningColumnName(t, left));
      range.Some? && RangeCanCompareScalar(range.value, right.scalar) && RangeExcludes(range.value, op, right.scalar)
    else if left.Literal? && PruningColumnName(t, right).Some? then
      var range := GetRange(meta, PruningColumnName(t, right));
      && range.Some?
      && RangeCanCompareScalar(range.value, left.scalar)
      && RangeExcludes(range.value, FlipOperator(op), left.scalar)
    else false
  }

  predicate BetweenExcludes(t: Table, e: Expr, meta: PartitionMetadata)
    requires e.Between?
  {
    var range := GetRange(meta, PruningColumnName(t, e.expr));
    && !e.negated
    && range.Some?
    && e.low.Literal? && e.high.Literal?
    && RangeCanCompareScalar(range.value, e.low.scalar) && RangeCanCompareScalar(range.value, e.high.scalar)
    && (|| CompareToScalar(range.value.max, e.low.scalar) == Some(Less)
        || CompareToScalar(range.value.min, e.high.scalar) == Some(Greater))
  }

  /** Whether an element of an IN list could equal a value of the range. */
  predicate MayMatch(range: DimensionRange, element: Expr) {
    if !element.Literal? then true
    else if !RangeCanCompareScalar(range, element.scalar) then true
    else
      var lo := CompareToScalar(range.min, element.scalar);
      var hi := CompareToScalar(range.max, element.scalar);
      if lo.Some? && hi.Some? then lo.value != Greater && hi.value != Less else true
  }

  predicate InListExcludes(t: Table, e: Expr, meta: PartitionMetadata)
    requires e.InList?
  {
    var range := GetRange(meta, PruningColumnName(t, e.expr));
    && !e.negated
    && range.Some?
    && !exists i :: 0 <= i < |e.list| && MayMatch(range.value, e.list[i])
  }

  predicate BooleanFilterExcludes(t: Table, e: Expr, expected: bool, meta: PartitionMetadata) {
    var range := GetRange(meta, PruningColumnName(t, e));
    && range.Some?
    && if expected then CompareToScalar(range.value.max, BooleanScalar(true)) == Some(Less)
       else CompareToScalar(range.value.min, BooleanScalar(false)) == Some(Greater)
  }

  predicate FilterExcludesPartition(t: Table, e: Expr, meta: PartitionMetadata) {
    match e
    case Column(_) => BooleanFilterExcludes(t, e, true, meta)
    case IsTrue(x) => BooleanFilterExcludes(t, x, true, meta)
    case IsNotFalse(x) => BooleanFilterExcludes(t, x, true, meta)
    case IsFalse(x) => BooleanFilterExcludes(t, x, false, meta)
    case IsNotTrue(x) => BooleanFilterExcludes(t, x, false, meta)
    case BinaryExpr(l, op, r) =>
      if op.And? then FilterExcludesPartition(t, l, meta) || FilterExcludesPartition(t, r, meta)
      else if op.Or? then FilterExcludesPartition(t, l, meta) && FilterExcludesPartition(t, r, meta)
      else ComparisonExcludes(t, l, op, r, meta)
    case Not(x) => PruningColumnName(t, x).Some? && BooleanFilterExcludes(t, x, false, meta)
    case Between(_, _, _, _) => BetweenExcludes(t, e, meta)
    case InList(_, _, _) => InListExcludes(t, e, meta)
    case _ => false
  }

  // ---------------------------------------------------------------------
  // Soundness
  // ---------------------------------------------------------------------

  /** What a row shows through a nest of casts: the column's own value, unless it overflows. */
  ghost predicate Shows(o: Outcome, v: Value) {
    || (o.Val? && o.v in {v, AsCalendar(v)})
    || (!o.Val? && Overflows(v))
  }

  /** Every accepted nest of casts leaves each value of the column as it is. */
  lemma {:induction false} CastsKeepValues(t: Table, engine: Engine, e: Expr, row: Row)
    requires var c := PruningColumnName(t, e);
             c.Some? && c.value in t.schema && c.value in row && HasType(t.schema[c.value], row[c.value])
    ensures var c := PruningColumnName(t, e).value;
            var o := Eval(engine, t.schema, e, row);
            && (o.Val? ==> OrderPreservingCast(t.schema[c], o.dtype) && o.v == Recast(o.dtype, row[c]))
            && (o.Val? && Overflows(row[c]) ==> o.dtype == t.schema[c])
            && (!o.Val? ==> Overflows(row[c]))
            && Shows(o, row[c])
  {
    match e
    case Column(_) =>
    case Cast(x, target) =>
      CastsKeepValues(t, engine, x, row);
      CastOnce(t, engine, x, row, target);
    case TryCast(x, target) =>
      CastsKeepValues(t, engine, x, row);
      CastOnce(t, engine, x, row, target);
  }

  lemma CastOnce(t: Table, engine: Engine, x: Expr, row: Row, target: DataType)
    requires var c := PruningColumnName(t, x);
             && c.Some? && c.value in t.schema && c.value in row && HasType(t.schema[c.value], row[c.value])
             && OrderPreservingCast(t.schema[c.value], target)
    requires var c := PruningColumnName(t, x).value;
             var o := Eval(engine, t.schema, x, row);
             && (o.Val? ==> OrderPreservingCast(t.schema[c], o.dtype) && o.v == Recast(o.dtype, row[c]))
             && (o.Val? && Overflows(row[c]) ==> o.dtype == t.schema[c])
             && (!o.Val? ==> Overflows(row[c]))
    ensures var c := PruningColumnName(t, x).value;
            forall attempt ::
              var o := CastOutcome(engine.cast, Eval(engine, t.schema, x, row), target, attempt);
              && (o.Val? ==> OrderPreservingCast(t.schema[c], o.dtype) && o.v == Recast(o.dtype, row[c]))
              && (o.Val? && Overflows(row[c]) ==> o.dtype == t.schema[c])
              && (!o.Val? ==> Overflows(row[c]))
  {
    var c := PruningColumnName(t, x).value;
    var o := Eval(engine, t.schema, x, row);
    if o.Val? {
      if Overflows(row[c]) {
        if target != o.dtype { CastOverflows(engine.cast, t.schema[c], target, row[c]); }
      } else {
        CastStep(engine.cast, t.schema[c], o.dtype, target, row[c]);
      }
    }
  }

  /** Reading a duration as an interval does not change how it compares. */
  lemma ShownOrder(v: Value, shown: Value, d: Value)
    requires shown in {v, AsCalendar(v)} && !v.Calendar?
    ensures Order(if d.Calendar? then AsCalendar(shown) else shown, if shown.Calendar? then AsCalendar(d) else d)
         == Order(if d.Calendar? then AsCalendar(v) else v, d)
  {}

  /** Month-free intervals are ordered as the durations they come from. */
  lemma CalendarMonotone(a: Value, b: Value)
    requires AtMost(a, b)
    ensures AtMost(AsCalendar(a), AsCalendar(b))
  {}

  /**
   The comparison of a bound with a scalar carries over to every value on its side of the bound:
   if the upper bound compares below the scalar so does every value in the range, and so on.
   */
  lemma CompareMonotone(b: ScalarBound, s: ScalarValue, v: Value)
    requires CompareToScalar(b, s).Some?
    ensures Denote(s).Some?
    ensures var o := Order(if s.IntervalScalar? then AsCalendar(v) else v, Denote(s).value);
            && (AtMost(v, BoundValue(b)) && CompareToScalar(b, s).value == Less ==> o == Some(Less))
            && (AtMost(v, BoundValue(b)) && CompareToScalar(b, s).value == Equal ==> o in {Some(Less), Some(Equal)})
            && (AtMost(BoundValue(b), v) && CompareToScalar(b, s).value == Greater ==> o == Some(Greater))
            && (AtMost(BoundValue(b), v) && CompareToScalar(b, s).value == Equal ==> o in {Some(Greater), Some(Equal)})
  {
    CompareToScalarExact(b, s);
    var d := Denote(s).value;
    var x := if s.IntervalScalar? then AsCalendar(v) else v;
    var y := if s.IntervalScalar? then AsCalendar(BoundValue(b)) else BoundValue(b);
    OrderEqual(y, d);
    OrderEqual(x, d);
    if AtMost(v, BoundValue(b)) {
      CalendarMonotone(v, BoundValue(b));
      OrderTransitive(x, y, d);
    }
    if AtMost(BoundValue(b), v) {
      CalendarMonotone(BoundValue(b), v);
      if AtMost(d, y) { OrderTransitive(d, y, x); }
    }
  }

  /** No conversion to an interval overflows when the value is compared with the scalar. */
  predicate Converts(v: Value, s: ScalarValue) {
    !Overflows(v) && (Denote(s).Some? ==> !Overflows(Denote(s).value))
  }

  function LiteralOutcome(s: ScalarValue): Outcome {
    if Denote(s).Some? then Val(TypeOf(s), Denote(s).value) else Null
  }

  /** An outcome no filter keeps: FALSE, or where a conversion overflows also NULL or a failure. */
  predicate Rejected(o: Outcome, converts: bool) {
    IsBool(o, false) || (!converts && !o.Val?)
  }

  /** Rejected, or TRUE by way of a zero. */
  predicate RejectedBut(o: Outcome, converts: bool, hazard: bool) {
    Rejected(o, converts) || (hazard && IsBool(o, true))
  }

  /** However the column is cast, it compares with a literal as its value does, unless a duration overflows. */
  lemma CompareShown(engine: Engine, op: Operator, s: ScalarValue, v: Value, o: Outcome)
    requires Shows(o, v) && !v.Calendar? && IsComparison(op) && Denote(s).Some?
    requires EngineOrder(engine, if s.IntervalScalar? then AsCalendar(v) else v, Denote(s).value).Some?
    ensures var ordering := EngineOrder(engine, if s.IntervalScalar? then AsCalendar(v) else v, Denote(s).value).value;
            var r := Compare(engine, op, o, LiteralOutcome(s));
            IsBool(r, Satisfies(op, ordering)) || (!Converts(v, s) && !r.Val?)
  {
    if o.Val? { ShownOrder(v, o.v, Denote(s).value); }
  }

  /** The one way an excluded value can satisfy the comparison: it and the literal are zeros of different sign. */
  predicate ZeroSplit(engine: Engine, op: Operator, v: Value, s: ScalarValue) {
    && engine.separatesZeros && Denote(s).Some?
    && IsZero(v) && IsZero(Denote(s).value) && v != Denote(s).value
    && (if v == Real(NegativeZero) then op in {Lt, NotEq} else op in {Gt, NotEq})
  }

  /** The order of the engine disagrees with that of the values on a value of an excluded range only there. */
  lemma ExcludedOrder(engine: Engine, range: DimensionRange, op: Operator, s: ScalarValue, v: Value)
    requires InRange(range, v) && RangeExcludes(range, op, s)
    ensures Denote(s).Some?
    ensures var ordering := EngineOrder(engine, if s.IntervalScalar? then AsCalendar(v) else v, Denote(s).value);
            ordering.Some? && (Satisfies(op, ordering.value) <==> ZeroSplit(engine, op, v, s))
  {
    RangeExcludesOrder(range, op, s, v);
    var d := Denote(s).value;
    if IsZero(v) && IsZero(d) {
      assert Order(v, d) == Some(Equal);
      assert !Satisfies(op, Equal) && IsComparison(op);
    }
  }

  /** Exchanging the sides of a comparison and flipping its operator changes nothing. */
  lemma CompareFlipped(engine: Engine, op: Operator, a: Value, b: Value)
    requires IsComparison(op)
    requires var x := if b.Calendar? then AsCalendar(a) else a;
             var y := if a.Calendar? then AsCalendar(b) else b;
             EngineOrder(engine, x, y).Some?
    ensures CompareValues(engine, FlipOperator(op), b, a) == CompareValues(engine, op, a, b)
  {
    OrderEqual(if b.Calendar? then AsCalendar(a) else a, if a.Calendar? then AsCalendar(b) else b);
  }

  /** No value of an excluded range stands in the relation to the scalar. */
  lemma RangeExcludesOrder(range: DimensionRange, op: Operator, s: ScalarValue, v: Value)
    requires InRange(range, v) && RangeExcludes(range, op, s)
    ensures Denote(s).Some?
    ensures var ordering := Order(if s.IntervalScalar? then AsCalendar(v) else v, Denote(s).value);
            ordering.Some? && !Satisfies(op, ordering.value)
  {
    if op == NotEq {
      RangeIsPoint(range, s, v);
    } else {
      if CompareToScalar(range.max, s).Some? { CompareMonotone(range.max, s, v); }
      if CompareToScalar(range.min, s).Some? { CompareMonotone(range.min, s, v); }
    }
  }

  /** Some value of the range stands in the relation to the denoted value. */
  ghost predicate SomeSatisfies(range: DimensionRange, op: Operator, d: Value) {
    exists v :: InRange(range, v) && Order(v, d).Some? && Satisfies(op, Order(v, d).value)
  }

  /**
   The test is as sharp as a range allows: where both ends compare with the scalar, a range is
   excluded exactly when no value in it stands in the relation.
   */
  lemma RangeExcludesExact(range: DimensionRange, op: Operator, s: ScalarValue)
    requires IsComparison(op) && !s.IntervalScalar?
    requires AtMost(BoundValue(range.min), BoundValue(range.max))
    requires CompareToScalar(range.min, s).Some? && CompareToScalar(range.max, s).Some?
    ensures Denote(s).Some?
    ensures RangeExcludes(range, op, s) <==> !SomeSatisfies(range, op, Denote(s).value)
  {
    CompareToScalarExact(range.min, s);
    CompareToScalarExact(range.max, s);
    var d := Denote(s).value;
    if RangeExcludes(range, op, s) {
      forall v | InRange(range, v) && Order(v, d).Some? ensures !Satisfies(op, Order(v, d).value) {
        RangeExcludesOrder(range, op, s, v);
      }
    } else {
      var v := Witness(range, op, d);
      assert InRange(range, v);
    }
  }

  /** A value of the range that stands in the relation, if one of three candidates does. */
  lemma Witness(range: DimensionRange, op: Operator, d: Value) returns (v: Value)
    requires IsComparison(op) && AtMost(BoundValue(range.min), BoundValue(range.max))
    requires var lo := Order(BoundValue(range.min), d);
             var hi := Order(BoundValue(range.max), d);
             && lo.Some? && hi.Some?
             && (op == Eq ==> lo.value != Greater && hi.value != Less)
             && (op == NotEq ==> lo.value != Equal || hi.value != Equal)
             && (op in {Lt, LtEq} ==> Satisfies(op, lo.value))
             && (op in {Gt, GtEq} ==> Satisfies(op, hi.value))
    ensures InRange(range, v) && Order(v, d).Some? && Satisfies(op, Order(v, d).value)
  {
    var min, max := BoundValue(range.min), BoundValue(range.max);
    OrderEqual(min, max);
    OrderEqual(min, min);
    OrderEqual(max, max);
    OrderEqual(max, d);
    OrderEqual(d, d);
    v := if op == Eq then d
         else if op in {Gt, GtEq} || (op == NotEq && Order(min, d) == Some(Equal)) then max
         else min;
    if op == Eq { SelfOrdered(min, d); }
  }

  lemma SelfOrdered(a: Value, d: Value)
    requires Order(a, d).Some?
    ensures Order(d, d) == Some(Equal)
  {
    OrderEqual(d, d);
    if d.Text? || d.Blob? { BytesEqual(d.s, d.s); }
  }

  /**
   Excluding a range is right for a value in it, however the column is cast and on whichever side
   of the operator it stands: the comparison is FALSE, unless a duration overflows. The exception
   is a zero against a zero of the other sign, which makes the comparison TRUE.
   */
  lemma RangeExcludesSound(engine: Engine, range: DimensionRange, op: Operator, s: ScalarValue, v: Value, o: Outcome)
    requires InRange(range, v) && Shows(o, v)
    requires RangeExcludes(range, op, s)
    ensures var r := Compare(engine, op, o, LiteralOutcome(s));
            if ZeroSplit(engine, op, v, s) then IsBool(r, true) else Rejected(r, Converts(v, s))
    ensures var r := Compare(engine, FlipOperator(op), LiteralOutcome(s), o);
            if ZeroSplit(engine, op, v, s) then IsBool(r, true) else Rejected(r, Converts(v, s))
  {
    ExcludedOrder(engine, range, op, s, v);
    BoundsAreNotCalendars(range.min, v);
    CompareShown(engine, op, s, v, o);
    if o.Val? {
      ShownOrder(v, o.v, Denote(s).value);
      CompareFlipped(engine, op, o.v, Denote(s).value);
    }
  }

  lemma BoundsAreNotCalendars(b: ScalarBound, v: Value)
    requires AtMost(BoundValue(b), v)
    ensures !v.Calendar?
  {}

  lemma RangeIsPoint(range: DimensionRange, s: ScalarValue, v: Value)
    requires InRange(range, v)
    requires CompareToScalar(range.min, s) == Some(Equal) && CompareToScalar(range.max, s) == Some(Equal)
    ensures Denote(s).Some?
    ensures Order(if s.IntervalScalar? then AsCalendar(v) else v, Denote(s).value) == Some(Equal)
  {
    CompareMonotone(range.max, s, v);
    CompareMonotone(range.min, s, v);
  }

  /** What a row shows for the dimension column behind an expression. */
  lemma PrunedColumn(t: Table, engine: Engine, e: Expr, meta: PartitionMetadata, row: Row)
    requires RowIn(t.schema, meta, row) && GetRange(meta, PruningColumnName(t, e)).Some?
    ensures var c := PruningColumnName(t, e).value;
            && c in row && HasType(t.schema[c], row[c])
            && InRange(GetRange(meta, PruningColumnName(t, e)).value, row[c])
            && Shows(Eval(engine, t.schema, e, row), row[c])
  {
    CastsKeepValues(t, engine, e, row);
  }

  /**
   What a caller can check before relying on an exclusion: the literal is a zero, and so is the
   end of the range it was compared with.
   */
  predicate ZeroHazard(range: DimensionRange, op: Operator, s: ScalarValue) {
    && Denote(s).Some?
    && match op
       case Gt => Denote(s).value == Real(NegativeZero) && IsZero(BoundValue(range.max))
       case Lt => Denote(s).value == Real(Finite(0.0)) && IsZero(BoundValue(range.min))
       case NotEq => IsZero(Denote(s).value) && IsZero(BoundValue(range.min)) && IsZero(BoundValue(range.max))
       case _ => false
  }

  /**
   An excluded range of floats loses a row, for an engine that separates the zeros, exactly under
   that hazard: then and only then some value in it satisfies the comparison.
   */
  lemma ZeroHazardExactly(engine: Engine, range: DimensionRange, op: Operator, s: ScalarValue, w: FloatWidth)
    requires RangeExcludes(range, op, s) && AtMost(BoundValue(range.min), BoundValue(range.max))
    ensures engine.separatesZeros && ZeroHazard(range, op, s)
       <==> exists v :: InRange(range, v) && HasType(Float(w), v) && ZeroSplit(engine, op, v, s)
  {
    forall v | InRange(range, v) && ZeroSplit(engine, op, v, s) ensures ZeroHazard(range, op, s) {
      ZeroSplitNeedsHazard(engine, range, op, s, v);
    }
    if engine.separatesZeros && ZeroHazard(range, op, s) {
      var v := Real(if Denote(s).value == Real(NegativeZero) then Finite(0.0) else NegativeZero);
      var min, max := BoundValue(range.min), BoundValue(range.max);
      assert Order(v, if op == Lt then min else max) == Some(Equal);
      OrderEqual(min, max);
      OrderEqual(min, v);
      OrderEqual(max, v);
      if op == Lt { OrderTransitive(v, min, max); } else if op == Gt { OrderTransitive(min, max, v); }
      assert InRange(range, v);
      ZeroHasType(w);
      assert ZeroSplit(engine, op, v, s);
    }
  }

  lemma ZeroSplitNeedsHazard(engine: Engine, range: DimensionRange, op: Operator, s: ScalarValue, v: Value)
    requires InRange(range, v) && RangeExcludes(range, op, s) && ZeroSplit(engine, op, v, s)
    ensures ZeroHazard(range, op, s)
  {
    CompareToScalarTotal(range.min, s);
    CompareToScalarTotal(range.max, s);
  }

  /** Both zeros are values of every float type. */
  lemma ZeroHasType(w: FloatWidth)
    ensures HasType(Float(w), Real(Finite(0.0))) && HasType(Float(w), Real(NegativeZero))
  {
    assert Significand(w, 0) && Exponent(w, 0) && 0.0 == Scaled(0, 0);
  }

  /** An excluded range rejects the comparison on every row, written either way round, but for a zero. */
  lemma ColumnRejects(t: Table, engine: Engine, column: Expr, op: Operator, s: ScalarValue, meta: PartitionMetadata,
                      row: Row)
    requires RowIn(t.schema, meta, row) && GetRange(meta, PruningColumnName(t, column)).Some?
    requires var range := GetRange(meta, PruningColumnName(t, column)).value;
             RangeCanCompareScalar(range, s) && RangeExcludes(range, op, s)
    ensures var o := Eval(engine, t.schema, column, row);
            var hazard := engine.separatesZeros
              && ZeroHazard(GetRange(meta, PruningColumnName(t, column)).value, op, s);
            && RejectedBut(Compare(engine, op, o, LiteralOutcome(s)), s.IntervalScalar?, hazard)
            && RejectedBut(Compare(engine, FlipOperator(op), LiteralOutcome(s), o), s.IntervalScalar?, hazard)
  {
    PrunedColumn(t, engine, column, meta, row);
    var range := GetRange(meta, PruningColumnName(t, column)).value;
    var v := row[PruningColumnName(t, column).value];
    RangeExcludesSound(engine, range, op, s, v, Eval(engine, t.schema, column, row));
    if ZeroSplit(engine, op, v, s) {
      ZeroSplitNeedsHazard(engine, range, op, s, v);
    } else if s.IntervalScalar? {
      EndpointsFit(range, s, v);
    }
  }

  /** When the endpoints of a range convert to intervals, so does every value between them. */
  lemma EndpointsFit(range: DimensionRange, s: ScalarValue, v: Value)
    requires InRange(range, v) && s.IntervalScalar? && RangeCanCompareScalar(range, s)
    ensures Converts(v, s)
  {}

  predicate IsIntervalLiteral(e: Expr) {
    e.Literal? && e.scalar.IntervalScalar?
  }

  /** The hazard of an excluded comparison, whichever side the literal is on. */
  predicate ComparisonHazard(t: Table, left: Expr, op: Operator, right: Expr, meta: PartitionMetadata) {
    if PruningColumnName(t, left).Some? && right.Literal? then
      var range := GetRange(meta, PruningColumnName(t, left));
      range.Some? && ZeroHazard(range.value, op, right.scalar)
    else if left.Literal? then
      var range := GetRange(meta, PruningColumnName(t, right));
      range.Some? && ZeroHazard(range.value, FlipOperator(op), left.scalar)
    else false
  }

  /** Against an interval literal an excluded comparison is FALSE on every row: no failed cast is hidden. */
  lemma ComparisonSound(t: Table, engine: Engine, left: Expr, op: Operator, right: Expr,
                        meta: PartitionMetadata, row: Row)
    requires RowIn(t.schema, meta, row) && ComparisonExcludes(t, left, op, right, meta)
    ensures var r := Compare(engine, op, Eval(engine, t.schema, left, row), Eval(engine, t.schema, right, row));
            RejectedBut(r, IsIntervalLiteral(left) || IsIntervalLiteral(right),
                        engine.separatesZeros && ComparisonHazard(t, left, op, right, meta))
  {
    if PruningColumnName(t, left).Some? && right.Literal? {
      ColumnRejects(t, engine, left, op, right.scalar, meta, row);
    } else {
      ColumnRejects(t, engine, right, FlipOperator(op), left.scalar, meta, row);
    }
  }

  lemma EvalBetween(engine: Engine, schema: Schema, x: Expr, low: Expr, high: Expr, row: Row)
    requires || !IsBool(Compare(engine, GtEq, Eval(engine, schema, x, row), Eval(engine, schema, low, row)), true)
             || !IsBool(Compare(engine, LtEq, Eval(engine, schema, x, row), Eval(engine, schema, high, row)), true)
    ensures !IsBool(Eval(engine, schema, Between(x, low, high, false), row), true)
  {}

  lemma BetweenSound(t: Table, engine: Engine, e: Expr, meta: PartitionMetadata, row: Row)
    requires e.Between? && RowIn(t.schema, meta, row) && BetweenExcludes(t, e, meta)
    ensures !IsBool(Eval(engine, t.schema, e, row), true)
  {
    if CompareToScalar(GetRange(meta, PruningColumnName(t, e.expr)).value.max, e.low.scalar) == Some(Less) {
      ColumnRejects(t, engine, e.expr, GtEq, e.low.scalar, meta, row);
    } else {
      ColumnRejects(t, engine, e.expr, LtEq, e.high.scalar, meta, row);
    }
    EvalBetween(engine, t.schema, e.expr, e.low, e.high, row);
  }

  lemma {:induction false} NoneEqual(engine: Engine, x: Outcome, list: seq<Outcome>)
    requires forall i :: 0 <= i < |list| ==> !IsBool(Compare(engine, Eq, x, list[i]), true)
    ensures !IsBool(AnyEqual(engine, x, list), true)
  {
    if list != [] { NoneEqual(engine, x, list[..|list| - 1]); }
  }

  lemma ElementRejects(t: Table, engine: Engine, e: Expr, i: nat, meta: PartitionMetadata, row: Row)
    requires e.InList? && RowIn(t.schema, meta, row) && InListExcludes(t, e, meta) && i < |e.list|
    ensures var x, y := Eval(engine, t.schema, e.expr, row), Eval(engine, t.schema, e.list[i], row);
            !IsBool(Compare(engine, Eq, x, y), true)
  {
    assert !MayMatch(GetRange(meta, PruningColumnName(t, e.expr)).value, e.list[i]);
    ColumnRejects(t, engine, e.expr, Eq, e.list[i].scalar, meta, row);
  }

  lemma EvalInList(engine: Engine, schema: Schema, x: Expr, list: seq<Expr>, row: Row)
    requires forall i :: 0 <= i < |list| ==>
               !IsBool(Compare(engine, Eq, Eval(engine, schema, x, row), Eval(engine, schema, list[i], row)), true)
    ensures !IsBool(Eval(engine, schema, InList(x, list, false), row), true)
  {
    var e := InList(x, list, false);
    var outcomes := seq(|e.list|, i requires 0 <= i < |e.list| => Eval(engine, schema, e.list[i], row));
    NoneEqual(engine, Eval(engine, schema, x, row), outcomes);
    assert Eval(engine, schema, e, row) == AnyEqual(engine, Eval(engine, schema, x, row), outcomes);
  }

  lemma InListSound(t: Table, engine: Engine, e: Expr, meta: PartitionMetadata, row: Row)
    requires e.InList? && RowIn(t.schema, meta, row) && InListExcludes(t, e, meta)
    ensures !IsBool(Eval(engine, t.schema, e, row), true)
  {
    forall i | 0 <= i < |e.list|
      ensures var x, y := Eval(engine, t.schema, e.expr, row), Eval(engine, t.schema, e.list[i], row);
              !IsBool(Compare(engine, Eq, x, y), true)
    {
      ElementRejects(t, engine, e, i, meta, row);
    }
    EvalInList(engine, t.schema, e.expr, e.list, row);
  }

  /** A boolean column whose range excludes a truth value never has it, whichever test asks. */
  lemma BooleanSound(t: Table, engine: Engine, e: Expr, expected: bool, meta: PartitionMetadata, row: Row)
    requires RowIn(t.schema, meta, row) && BooleanFilterExcludes(t, e, expected, meta)
    ensures IsBool(Eval(engine, t.schema, e, row), !expected)
  {
    PrunedColumn(t, engine, e, meta, row);
    BooleanRange(GetRange(meta, PruningColumnName(t, e)).value, expected, row[PruningColumnName(t, e).value]);
  }

  lemma BooleanRange(range: DimensionRange, expected: bool, v: Value)
    requires InRange(range, v)
    requires if expected then CompareToScalar(range.max, BooleanScalar(true)) == Some(Less)
             else CompareToScalar(range.min, BooleanScalar(false)) == Some(Greater)
    ensures v == Truth(!expected) && AsCalendar(v) == v && !Overflows(v)
  {}

  /** Whether an exclusion rests on a comparison with such a zero. */
  predicate RestsOnZero(t: Table, e: Expr, meta: PartitionMetadata) {
    match e
    case BinaryExpr(l, op, r) =>
      if op.And? then
        && (FilterExcludesPartition(t, l, meta) ==> RestsOnZero(t, l, meta))
        && (FilterExcludesPartition(t, r, meta) ==> RestsOnZero(t, r, meta))
      else if op.Or? then RestsOnZero(t, l, meta) || RestsOnZero(t, r, meta)
      else ComparisonHazard(t, l, op, r, meta)
    case _ => false
  }

  /** Excluded, and not because of a zero where that matters. */
  predicate Excluded(t: Table, engine: Engine, e: Expr, meta: PartitionMetadata) {
    FilterExcludesPartition(t, e, meta) && (engine.separatesZeros ==> !RestsOnZero(t, e, meta))
  }

  lemma ConnectiveRejects(t: Table, engine: Engine, l: Expr, op: Operator, r: Expr, meta: PartitionMetadata, row: Row)
    requires (op.And? || op.Or?) && Excluded(t, engine, BinaryExpr(l, op, r), meta)
    requires Excluded(t, engine, l, meta) ==> !IsBool(Eval(engine, t.schema, l, row), true)
    requires Excluded(t, engine, r, meta) ==> !IsBool(Eval(engine, t.schema, r, row), true)
    ensures !IsBool(Eval(engine, t.schema, BinaryExpr(l, op, r), row), true)
  {}

  /** A filter that is neither a conjunction nor a disjunction. */
  predicate IsLeaf(e: Expr) {
    e.BinaryExpr? ==> !e.op.And? && !e.op.Or?
  }

  lemma LeafSound(t: Table, engine: Engine, e: Expr, meta: PartitionMetadata, row: Row)
    requires RowIn(t.schema, meta, row) && Excluded(t, engine, e, meta) && IsLeaf(e)
    ensures !IsBool(Eval(engine, t.schema, e, row), true)
  {
    match e
    case Column(_) => BooleanSound(t, engine, e, true, meta, row);
    case IsTrue(x) => BooleanSound(t, engine, x, true, meta, row);
    case IsNotFalse(x) => BooleanSound(t, engine, x, true, meta, row);
    case IsFalse(x) => BooleanSound(t, engine, x, false, meta, row);
    case IsNotTrue(x) => BooleanSound(t, engine, x, false, meta, row);
    case Not(x) => BooleanSound(t, engine, x, false, meta, row);
    case Between(_, _, _, _) => BetweenSound(t, engine, e, meta, row);
    case InList(_, _, _) => InListSound(t, engine, e, meta, row);
    case BinaryExpr(l, op, r) => ComparisonSound(t, engine, l, op, r, meta, row);
  }

  /**
   Soundness: if the interpreter excludes a partition, then no row whose coordinates lie in the
   recorded ranges makes the filter TRUE, on every engine that has one zero, and on the others
   unless the exclusion rests on a zero.
   */
  lemma {:induction false} ExclusionSound(t: Table, engine: Engine, e: Expr, meta: PartitionMetadata, row: Row)
    requires RowIn(t.schema, meta, row) && FilterExcludesPartition(t, e, meta)
    requires engine.separatesZeros ==> !RestsOnZero(t, e, meta)
    ensures !IsBool(Eval(engine, t.schema, e, row), true)
  {
    if IsLeaf(e) {
      LeafSound(t, engine, e, meta, row);
    } else {
      if Excluded(t, engine, e.left, meta) { ExclusionSound(t, engine, e.left, meta, row); }
      if Excluded(t, engine, e.right, meta) { ExclusionSound(t, engine, e.right, meta, row); }
      ConnectiveRejects(t, engine, e.left, e.op, e.right, meta, row);
    }
  }

  // ---------------------------------------------------------------------
  // Sharpness
  // ---------------------------------------------------------------------

  /** The range is not empty, and both its ends compare with the scalar, which is no interval. */
  predicate Compares(range: DimensionRange, s: ScalarValue) {
    && AtMost(BoundValue(range.min), BoundValue(range.max)) && !s.IntervalScalar?
    && CompareToScalar(range.min, s).Some? && CompareToScalar(range.max, s).Some?
  }

  function RangeBehind(t: Table, e: Expr, meta: PartitionMetadata): Option<DimensionRange> {
    GetRange(meta, PruningColumnName(t, e))
  }

  /** A nonempty range of truth values. */
  predicate IsBooleanRange(range: DimensionRange) {
    range.min.BooleanBound? && range.max.BooleanBound? && AtMost(BoundValue(range.min), BoundValue(range.max))
  }

  predicate HasBooleanRange(t: Table, e: Expr, meta: PartitionMetadata) {
    RangeBehind(t, e, meta).Some? && IsBooleanRange(RangeBehind(t, e, meta).value)
  }

  predicate ComparesColumn(t: Table, column: Expr, literal: Expr, meta: PartitionMetadata) {
    && literal.Literal? && RangeBehind(t, column, meta).Some?
    && Compares(RangeBehind(t, column, meta).value, literal.scalar)
  }

  /** Filters made of tests of dimension columns against literals their ranges compare with. */
  predicate Comparable(t: Table, e: Expr, meta: PartitionMetadata) {
    match e
    case Column(_) => HasBooleanRange(t, e, meta)
    case IsTrue(x) => HasBooleanRange(t, x, meta)
    case IsNotFalse(x) => HasBooleanRange(t, x, meta)
    case IsFalse(x) => HasBooleanRange(t, x, meta)
    case IsNotTrue(x) => HasBooleanRange(t, x, meta)
    case Not(x) => HasBooleanRange(t, x, meta)
    case BinaryExpr(l, op, r) =>
      if op.And? || op.Or? then Comparable(t, l, meta) && Comparable(t, r, meta)
      else IsComparison(op) && (ComparesColumn(t, l, r, meta) || ComparesColumn(t, r, l, meta))
    case Between(x, low, high, negated) =>
      !negated && ComparesColumn(t, x, low, meta) && ComparesColumn(t, x, high, meta)
    case InList(x, list, negated) =>
      !negated && RangeBehind(t, x, meta).Some? && forall i :: 0 <= i < |list| ==> ComparesColumn(t, x, list[i], meta)
    case _ => false
  }

  function LiteralValue(e: Expr): Value
    requires e.Literal? && Denote(e.scalar).Some?
  {
    Denote(e.scalar).value
  }

  ghost predicate SomeTruth(range: DimensionRange, b: bool) {
    exists v :: InRange(range, v) && v == Truth(b)
  }

  /** Some value of the range lies between two others. */
  ghost predicate SomeBetween(range: DimensionRange, low: Value, high: Value) {
    exists v :: InRange(range, v) && AtMost(low, v) && AtMost(v, high)
  }

  /** Some value of the range is one of the literals. */
  ghost predicate SomeListed(range: DimensionRange, list: seq<Expr>)
    requires forall i :: 0 <= i < |list| ==> list[i].Literal? && Denote(list[i].scalar).Some?
  {
    exists i :: 0 <= i < |list| && SomeSatisfies(range, Eq, LiteralValue(list[i]))
  }

  lemma ComparesDenotes(range: DimensionRange, s: ScalarValue)
    requires Compares(range, s)
    ensures Denote(s).Some?
  {
    CompareToScalarExact(range.min, s);
  }

  /** A boolean test is excluded exactly when no value of the range has the truth value it asks for. */
  lemma BooleanExact(t: Table, e: Expr, expected: bool, meta: PartitionMetadata)
    requires HasBooleanRange(t, e, meta)
    ensures BooleanFilterExcludes(t, e, expected, meta) <==> !SomeTruth(RangeBehind(t, e, meta).value, expected)
  {
    var range := RangeBehind(t, e, meta).value;
    if !BooleanFilterExcludes(t, e, expected, meta) { assert InRange(range, Truth(expected)); }
  }

  /** A comparison is excluded exactly when no value of the range satisfies it, written either way round. */
  lemma ComparisonExact(t: Table, l: Expr, op: Operator, r: Expr, meta: PartitionMetadata)
    requires IsComparison(op)
    ensures ComparesColumn(t, l, r, meta) ==>
              && Denote(r.scalar).Some?
              && (ComparisonExcludes(t, l, op, r, meta) <==>
                  !SomeSatisfies(RangeBehind(t, l, meta).value, op, LiteralValue(r)))
    ensures ComparesColumn(t, r, l, meta) ==>
              && Denote(l.scalar).Some?
              && (ComparisonExcludes(t, l, op, r, meta) <==>
                  !SomeSatisfied(RangeBehind(t, r, meta).value, op, LiteralValue(l)))
  {
    if ComparesColumn(t, l, r, meta) {
      RangeExcludesExact(RangeBehind(t, l, meta).value, op, r.scalar);
    }
    if ComparesColumn(t, r, l, meta) {
      RangeExcludesExact(RangeBehind(t, r, meta).value, FlipOperator(op), l.scalar);
      SatisfiedFlipped(RangeBehind(t, r, meta).value, op, LiteralValue(l));
    }
  }

  /** The literal stands in the relation to some value of the range. */
  ghost predicate SomeSatisfied(range: DimensionRange, op: Operator, d: Value) {
    exists v :: InRange(range, v) && Order(d, v).Some? && Satisfies(op, Order(d, v).value)
  }

  lemma SatisfiedFlipped(range: DimensionRange, op: Operator, d: Value)
    requires IsComparison(op)
    ensures SomeSatisfies(range, FlipOperator(op), d) <==> SomeSatisfied(range, op, d)
  {
    forall v ensures (Order(v, d).Some? && Satisfies(FlipOperator(op), Order(v, d).value))
                <==> (Order(d, v).Some? && Satisfies(op, Order(d, v).value)) {
      OrderEqual(v, d);
    }
  }

  /**
   A BETWEEN is excluded exactly when the range lies on one side of it; with its ends in order, when
   no value is in it.
   */
  lemma BetweenExact(t: Table, e: Expr, meta: PartitionMetadata)
    requires e.Between? && Comparable(t, e, meta)
    ensures Denote(e.low.scalar).Some? && Denote(e.high.scalar).Some?
    ensures var range := RangeBehind(t, e.expr, meta).value;
            var low, high := LiteralValue(e.low), LiteralValue(e.high);
            && (BetweenExcludes(t, e, meta) <==> !SomeSatisfies(range, GtEq, low) || !SomeSatisfies(range, LtEq, high))
            && (AtMost(low, high) ==> (BetweenExcludes(t, e, meta) <==> !SomeBetween(range, low, high)))
  {
    var range := RangeBehind(t, e.expr, meta).value;
    RangeExcludesExact(range, GtEq, e.low.scalar);
    RangeExcludesExact(range, LtEq, e.high.scalar);
    if AtMost(LiteralValue(e.low), LiteralValue(e.high)) {
      BetweenOrdered(range, LiteralValue(e.low), LiteralValue(e.high));
    }
  }

  lemma OneSided(v: Value, d: Value)
    ensures Order(v, d).Some? && Satisfies(GtEq, Order(v, d).value) <==> AtMost(d, v)
    ensures Order(v, d).Some? && Satisfies(LtEq, Order(v, d).value) <==> AtMost(v, d)
  {
    OrderEqual(v, d);
  }

  /** A range with values on either side of an interval's ends meets the interval. */
  lemma BetweenOrdered(range: DimensionRange, low: Value, high: Value)
    requires AtMost(low, high)
    ensures SomeBetween(range, low, high) <==> SomeSatisfies(range, GtEq, low) && SomeSatisfies(range, LtEq, high)
  {
    if SomeBetween(range, low, high) {
      var v :| InRange(range, v) && AtMost(low, v) && AtMost(v, high);
      OneSided(v, low);
      OneSided(v, high);
    }
    if SomeSatisfies(range, GtEq, low) && SomeSatisfies(range, LtEq, high) {
      var v :| InRange(range, v) && Order(v, low).Some? && Satisfies(GtEq, Order(v, low).value);
      var w :| InRange(range, w) && Order(w, high).Some? && Satisfies(LtEq, Order(w, high).value);
      OneSided(v, low);
      OneSided(w, high);
      MeetsInterval(range, low, high, v, w);
    }
  }

  lemma MeetsInterval(range: DimensionRange, low: Value, high: Value, v: Value, w: Value)
    requires InRange(range, v) && InRange(range, w) && AtMost(low, high) && AtMost(low, v) && AtMost(w, high)
    ensures SomeBetween(range, low, high)
  {
    var min, max := BoundValue(range.min), BoundValue(range.max);
    OrderTransitive(min, w, high);
    OrderTransitive(low, v, max);
    OrderEqual(low, min);
    OrderEqual(low, low);
    OrderEqual(min, min);
    if AtMost(low, min) {
      OrderTransitive(min, w, max);
      assert InRange(range, min);
    } else {
      OrderMeaning(low, min);
      OrderMeaning(min, low);
      KindOfBoth(low, v, min);
      assert InRange(range, low);
    }
  }

  lemma KindOfBoth(a: Value, b: Value, c: Value)
    requires Order(a, b).Some? && Order(c, b).Some?
    ensures Order(a, c).Some? && Order(c, a).Some?
  {}

  /** Some duration of the range, read as an interval, stands in the relation to the denoted interval. */
  ghost predicate SomeDuration(range: DimensionRange, op: Operator, d: Value) {
    exists n: int :: InRange(range, Elapsed(n)) && Order(Calendar(0, 0, n), d).Some?
      && Satisfies(op, Order(Calendar(0, 0, n), d).value)
  }

  /**
   Durations compare with an interval exactly when it has no months and both ends fit its
   nanoseconds, and then a range is excluded exactly when no duration of it satisfies the operator.
   */
  lemma IntervalExact(range: DimensionRange, op: Operator, s: ScalarValue)
    requires range.min.DurationBound? && range.max.DurationBound? && s.IntervalScalar? && IsComparison(op)
    requires AtMost(BoundValue(range.min), BoundValue(range.max))
    ensures RangeCanCompareScalar(range, s) <==>
              s.months == 0 && !Overflows(BoundValue(range.min)) && !Overflows(BoundValue(range.max))
    ensures RangeCanCompareScalar(range, s) ==>
              (RangeExcludes(range, op, s) <==> !SomeDuration(range, op, Denote(s).value))
  {
    if RangeCanCompareScalar(range, s) {
      var d := Denote(s).value;
      if RangeExcludes(range, op, s) {
        forall n: int | InRange(range, Elapsed(n)) && Order(Calendar(0, 0, n), d).Some?
          ensures !Satisfies(op, Order(Calendar(0, 0, n), d).value)
        {
          RangeExcludesOrder(range, op, s, Elapsed(n));
        }
      } else {
        var n := DurationWitness(range, op, s);
      }
    }
  }

  lemma DurationWitness(range: DimensionRange, op: Operator, s: ScalarValue) returns (n: int)
    requires range.min.DurationBound? && range.max.DurationBound? && s.IntervalScalar? && IsComparison(op)
    requires AtMost(BoundValue(range.min), BoundValue(range.max))
    requires RangeCanCompareScalar(range, s) && !RangeExcludes(range, op, s)
    ensures InRange(range, Elapsed(n)) && Order(Calendar(0, 0, n), Denote(s).value).Some?
    ensures Satisfies(op, Order(Calendar(0, 0, n), Denote(s).value).value)
  {
    var low, high := BoundValue(range.min).nanos, BoundValue(range.max).nanos;
    n := if op == Eq then s.nanos
         else if op in {Gt, GtEq} || (op == NotEq && CompareToScalar(range.min, s) == Some(Equal)) then high
         else low;
  }

  /** An IN list is excluded exactly when no value of the range is on it. */
  lemma InListExact(t: Table, e: Expr, meta: PartitionMetadata)
    requires e.InList? && Comparable(t, e, meta)
    ensures forall i :: 0 <= i < |e.list| ==> e.list[i].Literal? && Denote(e.list[i].scalar).Some?
    ensures InListExcludes(t, e, meta) <==> !SomeListed(RangeBehind(t, e.expr, meta).value, e.list)
  {
    var range := RangeBehind(t, e.expr, meta).value;
    forall i | 0 <= i < |e.list|
      ensures e.list[i].Literal? && Denote(e.list[i].scalar).Some?
      ensures MayMatch(range, e.list[i]) <==> SomeSatisfies(range, Eq, LiteralValue(e.list[i]))
    {
      RangeExcludesExact(range, Eq, e.list[i].scalar);
    }
  }

  /** Whether the values of the ranges leave no row on which the filter could be TRUE, test by test. */
  ghost predicate NoValuePasses(t: Table, e: Expr, meta: PartitionMetadata)
    requires Comparable(t, e, meta)
  {
    match e
    case Column(_) => !SomeTruth(RangeBehind(t, e, meta).value, true)
    case IsTrue(x) => !SomeTruth(RangeBehind(t, x, meta).value, true)
    case IsNotFalse(x) => !SomeTruth(RangeBehind(t, x, meta).value, true)
    case IsFalse(x) => !SomeTruth(RangeBehind(t, x, meta).value, false)
    case IsNotTrue(x) => !SomeTruth(RangeBehind(t, x, meta).value, false)
    case Not(x) => !SomeTruth(RangeBehind(t, x, meta).value, false)
    case BinaryExpr(l, op, r) =>
      if op.And? then NoValuePasses(t, l, meta) || NoValuePasses(t, r, meta)
      else if op.Or? then NoValuePasses(t, l, meta) && NoValuePasses(t, r, meta)
      else NoneCompares(t, l, op, r, meta)
    case Between(x, low, high, _) =>
      ComparesDenotes(RangeBehind(t, x, meta).value, low.scalar);
      ComparesDenotes(RangeBehind(t, x, meta).value, high.scalar);
      || !SomeSatisfies(RangeBehind(t, x, meta).value, GtEq, LiteralValue(low))
      || !SomeSatisfies(RangeBehind(t, x, meta).value, LtEq, LiteralValue(high))
    case InList(x, list, _) =>
      InListExact(t, e, meta);
      !SomeListed(RangeBehind(t, x, meta).value, list)
  }

  ghost predicate NoneCompares(t: Table, l: Expr, op: Operator, r: Expr, meta: PartitionMetadata)
    requires IsComparison(op) && (ComparesColumn(t, l, r, meta) || ComparesColumn(t, r, l, meta))
  {
    ComparisonExact(t, l, op, r, meta);
    if ComparesColumn(t, l, r, meta) then !SomeSatisfies(RangeBehind(t, l, meta).value, op, LiteralValue(r))
    else !SomeSatisfied(RangeBehind(t, r, meta).value, op, LiteralValue(l))
  }

  /** On such filters the interpreter is as sharp as the ranges allow: it excludes exactly what their values do. */
  lemma {:induction false} ExcludedExactly(t: Table, e: Expr, meta: PartitionMetadata)
    requires Comparable(t, e, meta)
    ensures FilterExcludesPartition(t, e, meta) <==> NoValuePasses(t, e, meta)
  {
    match e
    case Column(_) => BooleanExact(t, e, true, meta);
    case IsTrue(x) => BooleanExact(t, x, true, meta);
    case IsNotFalse(x) => BooleanExact(t, x, true, meta);
    case IsFalse(x) => BooleanExact(t, x, false, meta);
    case IsNotTrue(x) => BooleanExact(t, x, false, meta);
    case Not(x) => BooleanExact(t, x, false, meta);
    case Between(_, _, _, _) => BetweenExact(t, e, meta);
    case InList(_, _, _) => InListExact(t, e, meta);
    case BinaryExpr(l, op, r) =>
      if op.And? || op.Or? {
        ExcludedExactly(t, l, meta);
        ExcludedExactly(t, r, meta);
      } else {
        ComparisonExact(t, l, op, r, meta);
      }
  }

  // ---------------------------------------------------------------------
  // Scans
  // ---------------------------------------------------------------------

  predicate Survives(t: Table, filters: seq<Expr>, meta: PartitionMetadata) {
    forall f :: 0 <= f < |filters| ==> !FilterExcludesPartition(t, filters[f], meta)
  }

  predicate IsZeroLiteral(e: Expr) {
    e.Literal? && Denote(e.scalar).Some? && IsZero(Denote(e.scalar).value)
  }

  /** Some comparison of the filter has a zero for its literal. */
  predicate ComparesZero(e: Expr) {
    match e
    case BinaryExpr(l, op, r) =>
      if op.And? || op.Or? then ComparesZero(l) || ComparesZero(r) else IsZeroLiteral(l) || IsZeroLiteral(r)
    case _ => false
  }

  /** Only an exclusion for such a filter can rest on a zero. */
  lemma {:induction false} RestsOnZeroLiteral(t: Table, e: Expr, meta: PartitionMetadata)
    requires FilterExcludesPartition(t, e, meta) && RestsOnZero(t, e, meta)
    ensures ComparesZero(e)
  {
    match e
    case BinaryExpr(l, op, r) =>
      if op.And? || op.Or? {
        if FilterExcludesPartition(t, l, meta) && RestsOnZero(t, l, meta) { RestsOnZeroLiteral(t, l, meta); }
        if FilterExcludesPartition(t, r, meta) && RestsOnZero(t, r, meta) { RestsOnZeroLiteral(t, r, meta); }
      }
    case _ =>
  }

  /** No filter excludes the partition because of a zero, or the engine has only one. */
  predicate ZeroSafe(t: Table, engine: Engine, filters: seq<Expr>, meta: PartitionMetadata) {
    forall f :: 0 <= f < |filters| && FilterExcludesPartition(t, filters[f], meta) ==>
      Excluded(t, engine, filters[f], meta)
  }

  ghost predicate AllZeroSafe(t: Table, engine: Engine, filters: seq<Expr>) {
    forall p :: 0 <= p < |t.metas| ==> ZeroSafe(t, engine, filters, t.metas[p])
  }

  lemma SafeAt(t: Table, engine: Engine, filters: seq<Expr>, partitions: seq<seq<Row>>, p: nat)
    requires AllZeroSafe(t, engine, filters) && Described(t, partitions) && p < |partitions|
    ensures ZeroSafe(t, engine, filters, t.metas[p]) && DescribedBy(t, t.metas[p], partitions[p])
  {}

  /** Indices of the partitions that no filter excludes, in order, among the first `n`. */
  function PrunePartitions(t: Table, filters: seq<Expr>, n: nat): (kept: seq<nat>)
    requires n <= |t.metas|
    ensures forall k :: 0 <= k < |kept| ==> kept[k] < n
  {
    if n == 0 then []
    else PrunePartitions(t, filters, n - 1) + (if Survives(t, filters, t.metas[n - 1]) then [n - 1] else [])
  }

  function ScanRows(partitions: seq<seq<Row>>, indices: seq<nat>): seq<Row>
    requires forall k :: 0 <= k < |indices| ==> indices[k] < |partitions|
  {
    if indices == [] then []
    else ScanRows(partitions, indices[..|indices| - 1]) + partitions[indices[|indices| - 1]]
  }

  ghost predicate Passes(engine: Engine, schema: Schema, filters: seq<Expr>, row: Row) {
    forall f :: 0 <= f < |filters| ==> IsBool(Eval(engine, schema, filters[f], row), true)
  }

  /** The rows that satisfy every filter, in order: the filter step the engine applies to a scan. */
  ghost function Matching(engine: Engine, schema: Schema, filters: seq<Expr>, rows: seq<Row>): seq<Row> {
    if rows == [] then []
    else
      var last := rows[|rows| - 1];
      Matching(engine, schema, filters, rows[..|rows| - 1])
        + if Passes(engine, schema, filters, last) then [last] else []
  }

  lemma {:induction false} MatchingConcat(engine: Engine, schema: Schema, filters: seq<Expr>, a: seq<Row>, b: seq<Row>)
    ensures Matching(engine, schema, filters, a + b)
         == Matching(engine, schema, filters, a) + Matching(engine, schema, filters, b)
  {
    if b == [] {
      assert a + b == a;
    } else {
      assert (a + b)[..|a + b| - 1] == a + b[..|b| - 1];
      MatchingConcat(engine, schema, filters, a, b[..|b| - 1]);
    }
  }

  lemma MatchingExtend(engine: Engine, schema: Schema, filters: seq<Expr>, a: seq<Row>, b: seq<Row>, rows: seq<Row>)
    requires Matching(engine, schema, filters, a) == Matching(engine, schema, filters, b)
    ensures Matching(engine, schema, filters, a + rows) == Matching(engine, schema, filters, b + rows)
    ensures Matching(engine, schema, filters, rows) == [] ==>
              Matching(engine, schema, filters, a) == Matching(engine, schema, filters, b + rows)
  {
    MatchingConcat(engine, schema, filters, a, rows);
    MatchingConcat(engine, schema, filters, b, rows);
  }

  lemma {:induction false} NoneMatch(engine: Engine, schema: Schema, filters: seq<Expr>, rows: seq<Row>)
    requires forall i :: 0 <= i < |rows| ==> !Passes(engine, schema, filters, rows[i])
    ensures Matching(engine, schema, filters, rows) == []
  {
    if rows != [] { NoneMatch(engine, schema, filters, rows[..|rows| - 1]); }
  }

  ghost predicate Described(t: Table, partitions: seq<seq<Row>>) {
    && |partitions| == |t.metas|
    && forall p :: 0 <= p < |partitions| ==> DescribedBy(t, t.metas[p], partitions[p])
  }

  ghost predicate DescribedBy(t: Table, meta: PartitionMetadata, rows: seq<Row>) {
    forall i :: 0 <= i < |rows| ==> RowIn(t.schema, meta, rows[i])
  }

  function Upto(n: nat): (indices: seq<nat>)
    ensures |indices| == n && forall i :: 0 <= i < n ==> indices[i] == i
  {
    if n == 0 then [] else Upto(n - 1) + [n - 1]
  }

  ghost predicate SameMatches(engine: Engine, schema: Schema, filters: seq<Expr>, a: seq<Row>, b: seq<Row>) {
    Matching(engine, schema, filters, a) == Matching(engine, schema, filters, b)
  }

  /** Scanning only the surviving partitions and filtering again gives the rows a full scan gives, in order. */
  lemma {:induction false} PrunedScanComplete(t: Table, engine: Engine, filters: seq<Expr>, partitions: seq<seq<Row>>,
                                              n: nat)
    requires Described(t, partitions) && n <= |partitions|
    requires AllZeroSafe(t, engine, filters)
    ensures ScansAgree(t, engine, filters, partitions, n)
  {
    if n > 0 {
      PrunedScanComplete(t, engine, filters, partitions, n - 1);
      SafeAt(t, engine, filters, partitions, n - 1);
      AgreesStep(t, engine, filters, partitions, n - 1);
    }
  }

  /** The pruned scan of the first partitions has the matches of the full one. */
  ghost predicate ScansAgree(t: Table, engine: Engine, filters: seq<Expr>, partitions: seq<seq<Row>>, n: nat)
    requires |partitions| == |t.metas| && n <= |partitions|
  {
    SameMatches(engine, t.schema, filters,
      ScanRows(partitions, PrunePartitions(t, filters, n)), ScanRows(partitions, Upto(n)))
  }

  lemma AgreesStep(t: Table, engine: Engine, filters: seq<Expr>, partitions: seq<seq<Row>>, n: nat)
    requires |partitions| == |t.metas| && n < |partitions| && ScansAgree(t, engine, filters, partitions, n)
    requires ZeroSafe(t, engine, filters, t.metas[n]) && DescribedBy(t, t.metas[n], partitions[n])
    ensures ScansAgree(t, engine, filters, partitions, n + 1)
  {
    KeptStep(t, filters, partitions, n);
    ScanSnoc(partitions, Upto(n), n);
    ScanStep(t, engine, filters, ScanRows(partitions, PrunePartitions(t, filters, n)),
             ScanRows(partitions, Upto(n)), t.metas[n], partitions[n]);
  }

  lemma KeptStep(t: Table, filters: seq<Expr>, partitions: seq<seq<Row>>, n: nat)
    requires |partitions| == |t.metas| && n < |partitions|
    ensures ScanRows(partitions, PrunePartitions(t, filters, n + 1))
         == ScanRows(partitions, PrunePartitions(t, filters, n))
          + if Survives(t, filters, t.metas[n]) then partitions[n] else []
  {
    var kept := PrunePartitions(t, filters, n);
    if Survives(t, filters, t.metas[n]) {
      ScanSnoc(partitions, kept, n);
    } else {
      assert kept + [] == kept;
    }
  }

  /** One more partition scanned in full, and by the pruned scan only if it survives. */
  lemma ScanStep(t: Table, engine: Engine, filters: seq<Expr>, kept: seq<Row>, all: seq<Row>,
                 meta: PartitionMetadata, rows: seq<Row>)
    requires DescribedBy(t, meta, rows) && SameMatches(engine, t.schema, filters, kept, all)
    requires ZeroSafe(t, engine, filters, meta)
    ensures SameMatches(engine, t.schema, filters, kept + if Survives(t, filters, meta) then rows else [], all + rows)
  {
    MatchingExtend(engine, t.schema, filters, kept, all, rows);
    if !Survives(t, filters, meta) {
      PartitionRejected(t, engine, filters, meta, rows);
      assert kept + [] == kept;
    }
  }

  lemma ScanSnoc(partitions: seq<seq<Row>>, indices: seq<nat>, p: nat)
    requires p < |partitions| && forall k :: 0 <= k < |indices| ==> indices[k] < |partitions|
    ensures forall k :: 0 <= k < |indices + [p]| ==> (indices + [p])[k] < |partitions|
    ensures ScanRows(partitions, indices + [p]) == ScanRows(partitions, indices) + partitions[p]
  {
    assert (indices + [p])[..|indices|] == indices;
  }

  lemma PartitionRejected(t: Table, engine: Engine, filters: seq<Expr>, meta: PartitionMetadata, rows: seq<Row>)
    requires DescribedBy(t, meta, rows) && !Survives(t, filters, meta) && ZeroSafe(t, engine, filters, meta)
    ensures Matching(engine, t.schema, filters, rows) == []
  {
    var f :| 0 <= f < |filters| && FilterExcludesPartition(t, filters[f], meta);
    forall i | 0 <= i < |rows| ensures !Passes(engine, t.schema, filters, rows[i]) {
      ExclusionSound(t, engine, filters[f], meta, rows[i]);
    }
    NoneMatch(engine, t.schema, filters, rows);
  }

  // ---------------------------------------------------------------------
  // Errors
  // ---------------------------------------------------------------------

  /** Whether a nest of casts turns the column into an interval on the way. */
  predicate ThroughInterval(e: Expr) {
    match e
    case Cast(x, target) => target == Interval(MonthDayNano) || ThroughInterval(x)
    case TryCast(x, target) => target == Interval(MonthDayNano) || ThroughInterval(x)
    case _ => false
  }

  /** An accepted nest fails on a row exactly when an overflowing duration becomes an interval in it. */
  lemma {:induction false} CastFailsExactly(t: Table, engine: Engine, e: Expr, row: Row)
    requires var c := PruningColumnName(t, e);
             c.Some? && c.value in t.schema && c.value in row && HasType(t.schema[c.value], row[c.value])
    ensures var c := PruningColumnName(t, e).value;
            !Eval(engine, t.schema, e, row).Val? <==> Overflows(row[c]) && ThroughInterval(e)
  {
    match e
    case Column(_) =>
    case Cast(x, target) =>
      CastFailsExactly(t, engine, x, row);
      CastFailsOnce(t, engine, x, row, target);
    case TryCast(x, target) =>
      CastFailsExactly(t, engine, x, row);
      CastFailsOnce(t, engine, x, row, target);
  }

  lemma CastFailsOnce(t: Table, engine: Engine, x: Expr, row: Row, target: DataType)
    requires var c := PruningColumnName(t, x);
             && c.Some? && c.value in t.schema && c.value in row && HasType(t.schema[c.value], row[c.value])
             && OrderPreservingCast(t.schema[c.value], target)
    ensures var o := Eval(engine, t.schema, x, row);
            var v := row[PruningColumnName(t, x).value];
            forall attempt ::
              !CastOutcome(engine.cast, o, target, attempt).Val? <==>
              !o.Val? || (Overflows(v) && target == Interval(MonthDayNano))
  {
    CastsKeepValues(t, engine, x, row);
    var c := PruningColumnName(t, x).value;
    var o := Eval(engine, t.schema, x, row);
    if o.Val? {
      if Overflows(row[c]) {
        if target != o.dtype { CastOverflows(engine.cast, t.schema[c], target, row[c]); }
      } else {
        CastStep(engine.cast, t.schema[c], o.dtype, target, row[c]);
      }
    }
  }

  /**
   What an excluded comparison with a literal other than an interval hides: nothing, except
   exactly the rows on which an overflowing duration becomes an interval under the comparison, and
   zeros that the engine tells apart.
   */
  lemma HiddenFailureExactly(t: Table, engine: Engine, column: Expr, op: Operator, s: ScalarValue,
                             meta: PartitionMetadata, row: Row)
    requires RowIn(t.schema, meta, row) && GetRange(meta, PruningColumnName(t, column)).Some?
    requires RangeExcludes(GetRange(meta, PruningColumnName(t, column)).value, op, s)
    requires !s.IntervalScalar? && Denote(s).Some? && !Overflows(Denote(s).value)
    ensures var r := Compare(engine, op, Eval(engine, t.schema, column, row), LiteralOutcome(s));
            var v := row[PruningColumnName(t, column).value];
            IsBool(r, false) <==> !(Overflows(v) && ThroughInterval(column)) && !ZeroSplit(engine, op, v, s)
  {
    PrunedColumn(t, engine, column, meta, row);
    var c := PruningColumnName(t, column).value;
    CastFailsExactly(t, engine, column, row);
    ExcludedOrder(engine, meta.ranges[c], op, s, row[c]);
    BoundsAreNotCalendars(meta.ranges[c].min, row[c]);
    ExcludedWhenShown(engine, op, s, row[c], Eval(engine, t.schema, column, row));
  }

  /** A comparison that no value satisfies is FALSE wherever the column can be read at all. */
  lemma ExcludedWhenShown(engine: Engine, op: Operator, s: ScalarValue, v: Value, o: Outcome)
    requires Shows(o, v) && !v.Calendar? && IsComparison(op)
    requires !s.IntervalScalar? && Denote(s).Some? && !Overflows(Denote(s).value)
    requires EngineOrder(engine, v, Denote(s).value).Some?
    ensures var fails := !Satisfies(op, EngineOrder(engine, v, Denote(s).value).value);
            IsBool(Compare(engine, op, o, LiteralOutcome(s)), false) <==> o.Val? && fails
  {
    if o.Val? { ShownOrder(v, o.v, Denote(s).value); }
  }

  // A column that holds the negative zero only, and the filter `x < 0.0`.
  const NEGATIVE_ZEROS := PartitionMetadata(
    map["x" := DimensionRange(FloatBound(Double, NegativeZero), FloatBound(Double, NegativeZero))], 1)
  const ZERO_TABLE := Table(map["x" := Float(Double)], [NEGATIVE_ZEROS])
  const BELOW_ZERO := BinaryExpr(Column("x"), Lt, Literal(FloatScalar(Double, Finite(0.0))))
  const ZERO_ROW: Row := map["x" := Real(NegativeZero)]

  /** The partition is excluded, and an engine that separates the zeros loses its row. */
  lemma LostZero(engine: Engine)
    requires engine.separatesZeros
    ensures RowIn(ZERO_TABLE.schema, NEGATIVE_ZEROS, ZERO_ROW)
    ensures FilterExcludesPartition(ZERO_TABLE, BELOW_ZERO, NEGATIVE_ZEROS)
    ensures Eval(engine, ZERO_TABLE.schema, BELOW_ZERO, ZERO_ROW) == Bool(true)
  {
    ZeroHasType(Double);
    ZeroExcluded();
    ZeroEvaluated(engine);
  }

  lemma ZeroExcluded()
    ensures FilterExcludesPartition(ZERO_TABLE, BELOW_ZERO, NEGATIVE_ZEROS)
  {
    assert "x" in NEGATIVE_ZEROS.ranges && ZERO_TABLE.DimensionColumns() == {"x"};
    assert PruningColumnName(ZERO_TABLE, Column("x")) == Some("x");
  }

  lemma ZeroEvaluated(engine: Engine)
    requires engine.separatesZeros
    ensures Eval(engine, ZERO_TABLE.schema, BELOW_ZERO, ZERO_ROW) == Bool(true)
  {
    assert Eval(engine, ZERO_TABLE.schema, Column("x"), ZERO_ROW) == Val(Float(Double), Real(NegativeZero));
  }

  // A lead time of 10^19 nanoseconds, cast to an interval and back before it is compared.
  const LONG_LEAD := PartitionMetadata(
    map["lead" := DimensionRange(DurationBound(Second, 10_000_000_000), DurationBound(Second, 10_000_000_000))], 1)
  const LEAD_TABLE := Table(map["lead" := Duration(Second)], [LONG_LEAD])
  const AS_INTERVAL := Cast(Column("lead"), Interval(MonthDayNano))
  const BEFORE_START := BinaryExpr(Cast(AS_INTERVAL, Duration(Second)), Lt, Literal(DurationScalar(Second, 0)))
  const LEAD_ROW: Row := map["lead" := Elapsed(10_000_000_000_000_000_000)]

  /**
   Pruning may hide a failed cast all the same: the overflow check looks at interval literals
   only, and a duration cast to an interval and back is compared with a duration.
   */
  lemma HiddenOverflow(engine: Engine)
    ensures RowIn(LEAD_TABLE.schema, LONG_LEAD, LEAD_ROW)
    ensures FilterExcludesPartition(LEAD_TABLE, BEFORE_START, LONG_LEAD)
    ensures Eval(engine, LEAD_TABLE.schema, BEFORE_START, LEAD_ROW) == Err
  {
    LeadExcluded();
    LeadFails(engine);
  }

  lemma LeadExcluded()
    ensures FilterExcludesPartition(LEAD_TABLE, BEFORE_START, LONG_LEAD)
  {
    assert "lead" in LONG_LEAD.ranges && LEAD_TABLE.DimensionColumns() == {"lead"};
    assert PruningColumnName(LEAD_TABLE, AS_INTERVAL) == Some("lead");
    assert PruningColumnName(LEAD_TABLE, Cast(AS_INTERVAL, Duration(Second))) == Some("lead");
  }

  lemma LeadFails(engine: Engine)
    ensures Eval(engine, LEAD_TABLE.schema, BEFORE_START, LEAD_ROW) == Err
  {
    assert Eval(engine, LEAD_TABLE.schema, AS_INTERVAL, LEAD_ROW) == Err;
  }
}
