/**
 A concrete guarantee simplifier: filters as expression trees, evaluated on rows with
 three-valued logic and on range guarantees by intervals. It shows that the soundness asked of
 the simplifier can be met, and which filters `count_rows` counts exactly.
 */
module FilterExpr {
  import opened ChunkGrids
  import opened CoordTables
  import opened StrictPartition
  import opened BlockScan
  import opened PushdownDataset
  import opened Wrappers

  datatype Comparison = Less | LessEqual | Greater | GreaterEqual | Equal | NotEqual

  /**
   A filter over the columns of a table: comparisons of a dimension with a literal that may be
   NULL, membership in a list, a boolean literal, a predicate on data columns, and connectives.
   */
  datatype Expr =
    | Literal(truth: Truth)
    | Compare(d: nat, op: Comparison, value: Option<real>)
    | IsIn(d: nat, values: seq<real>)
    | Data(column: nat)
    | And(left: Expr, right: Expr)
    | Or(left: Expr, right: Expr)
    | Not(inner: Expr)

  /** Values of the data predicates. */
  type DataColumns = (nat, Row) -> Truth

  function Bool(b: bool): Truth {
    if b then True else False
  }

  function AndTruth(a: Truth, b: Truth): Truth {
    if a == False || b == False then False else if a == True && b == True then True else Null
  }

  function NotTruth(a: Truth): Truth {
    match a case True => False case False => True case Null => Null
  }

  function OrTruth(a: Truth, b: Truth): Truth {
    NotTruth(AndTruth(NotTruth(a), NotTruth(b)))
  }

  function CompareReal(op: Comparison, x: real, v: real): bool {
    match op
    case Less => x < v
    case LessEqual => x <= v
    case Greater => x > v
    case GreaterEqual => x >= v
    case Equal => x == v
    case NotEqual => x != v
  }

  function CoordAt(t: Table, d: nat, row: Row): Coord {
    if d < |t.dims| && d < |row| && row[d] < |t.dims[d].coords| then t.dims[d].coords[row[d]] else NaN
  }

  /** A NULL cell makes a comparison NULL; a NaN compares as unequal to everything. */
  function CompareCell(t: Table, d: nat, row: Row, op: Comparison, v: real): Truth {
    match CoordAt(t, d, row)
    case Num(x) => Bool(CompareReal(op, x, v))
    case NaN => if d < |t.dims| && t.dims[d].nullable then Null else Bool(op == NotEqual)
  }

  function Eval(t: Table, data: DataColumns, e: Expr, row: Row): Truth {
    match e
    case Literal(truth) => truth
    case Compare(d, op, value) =>
      if value.None? then Null else CompareCell(t, d, row, op, value.value)
    case IsIn(d, values) => Bool(AnyEqual(CoordAt(t, d, row), values))
    case Data(column) => data(column, row)
    case And(a, b) => AndTruth(Eval(t, data, a, row), Eval(t, data, b, row))
    case Or(a, b) => OrTruth(Eval(t, data, a, row), Eval(t, data, b, row))
    case Not(a) => NotTruth(Eval(t, data, a, row))
  }

  function AnyEqual(x: Coord, values: seq<real>): bool {
    exists i :: 0 <= i < |values| && x == Num(values[i])
  }

  function FilterOf(t: Table, data: DataColumns, e: Expr): Filter {
    (row: Row) => Eval(t, data, e, row)
  }

  // ---------------------------------------------------------------------
  // Intervals
  // ---------------------------------------------------------------------

  /** Which truth values a filter may take on rows meeting a guarantee. */
  datatype Possible = Possible(yes: bool, no: bool, unknown: bool) {

    predicate Has(truth: Truth) {
      match truth case True => yes case False => no case Null => unknown
    }
  }

  const ANYTHING := Possible(true, true, true)

  function AndPossible(a: Possible, b: Possible): Possible {
    Possible(
      a.yes && b.yes,
      a.no || b.no,
      (a.unknown && (b.yes || b.unknown)) || (b.unknown && (a.yes || a.unknown)))
  }

  function NotPossible(a: Possible): Possible {
    Possible(a.no, a.yes, a.unknown)
  }

  function OrPossible(a: Possible, b: Possible): Possible {
    NotPossible(AndPossible(NotPossible(a), NotPossible(b)))
  }

  /** A comparison over a closed interval. */
  function CompareInterval(op: Comparison, lo: real, hi: real, v: real): Possible {
    match op
    case Less => Possible(lo < v, hi >= v, false)
    case LessEqual => Possible(lo <= v, hi > v, false)
    case Greater => Possible(hi > v, lo <= v, false)
    case GreaterEqual => Possible(hi >= v, lo < v, false)
    case Equal => Possible(lo <= v <= hi, !(lo == hi == v), false)
    case NotEqual => Possible(!(lo == hi == v), lo <= v <= hi, false)
  }

  function RangeOf(g: Guarantee, d: nat): Option<(real, real)> {
    if d < |g| then g[d] else None
  }

  function Simplify(g: Guarantee, e: Expr): Possible {
    match e
    case Literal(truth) => Possible(truth == True, truth == False, truth == Null)
    case Compare(d, op, value) =>
      if value.None? then Possible(false, false, true)
      else
        (match RangeOf(g, d)
         case None => ANYTHING
         case Some((lo, hi)) => CompareInterval(op, lo, hi, value.value))
    case IsIn(d, values) =>
      (match RangeOf(g, d)
       case None => Possible(true, true, false)
       case Some((lo, hi)) => Possible(AnyWithin(values, lo, hi), !(lo == hi && lo in values), false))
    case Data(_) => ANYTHING
    case And(a, b) => AndPossible(Simplify(g, a), Simplify(g, b))
    case Or(a, b) => OrPossible(Simplify(g, a), Simplify(g, b))
    case Not(a) => NotPossible(Simplify(g, a))
  }

  predicate AnyWithin(values: seq<real>, lo: real, hi: real) {
    exists i :: 0 <= i < |values| && lo <= values[i] <= hi
  }

  /** On every row that meets the guarantee, the filter takes one of the values the simplifier allows. */
  lemma {:induction false} SimplifySound(t: Table, data: DataColumns, g: Guarantee, e: Expr, row: Row)
    requires t.Valid() && IsRow(t, row) && Holds(t, g, row)
    ensures Simplify(g, e).Has(Eval(t, data, e, row))
  {
    match e
    case Literal(_) =>
    case Compare(d, op, value) =>
      if d < |g| && g[d].Some? { assert CoordAt(t, d, row).Num?; }
    case IsIn(d, values) =>
      if d < |g| && g[d].Some? {
        var x := CoordAt(t, d, row);
        assert x.Num?;
        if AnyEqual(x, values) {
          var i :| 0 <= i < |values| && x == Num(values[i]);
          assert g[d].value.0 <= values[i] <= g[d].value.1;
        }
        if x.v in values {
          var i :| 0 <= i < |values| && values[i] == x.v;
          assert x == Num(values[i]);
        }
      }
    case Data(_) =>
    case And(a, b) =>
      SimplifySound(t, data, g, a, row);
      SimplifySound(t, data, g, b, row);
    case Or(a, b) =>
      SimplifySound(t, data, g, a, row);
      SimplifySound(t, data, g, b, row);
    case Not(a) =>
      SimplifySound(t, data, g, a, row);
  }

  /** The simplifier as the satisfiability question about fragments. */
  function SatisfiableBy(e: Expr): Oracle {
    (g: Guarantee) => if Simplify(g, e).yes then Satisfiable else Unsatisfiable
  }

  /** It meets what pruning and strictness ask of a filter and of its negation. */
  lemma SimplifierIsSound(t: Table, data: DataColumns, e: Expr)
    requires t.Valid()
    ensures Sound(SatisfiableBy(e), t, FilterOf(t, data, e), True)
    ensures Sound(SatisfiableBy(Not(e)), t, FilterOf(t, data, e), False)
  {
    forall g: Guarantee, row: Row | IsRow(t, row) && Holds(t, g, row)
      ensures Simplify(g, e).Has(Eval(t, data, e, row))
      ensures FilterOf(t, data, e)(row) == True ==> SatisfiableBy(e)(g) != Unsatisfiable
      ensures FilterOf(t, data, e)(row) == False ==> SatisfiableBy(Not(e))(g) != Unsatisfiable
    {
      SimplifySound(t, data, g, e, row);
    }
  }

  // ---------------------------------------------------------------------
  // Sharpness
  // ---------------------------------------------------------------------

  /** A comparison with a value, or membership in a list, of coordinate `d`. */
  predicate IsTest(e: Expr, d: nat) {
    (e.Compare? && e.d == d && e.value.Some?) || (e.IsIn? && e.d == d)
  }

  predicate Passes(e: Expr, x: real)
    requires e.Compare? ==> e.value.Some?
  {
    match e
    case Compare(_, op, value) => CompareReal(op, x, value.value)
    case IsIn(_, values) => x in values
    case _ => false
  }

  /** Between any two reals there is one outside a list. */
  lemma {:induction false} RealOutside(values: seq<real>, lo: real, hi: real) returns (x: real)
    requires lo < hi
    ensures lo < x < hi && x !in values
  {
    var mid := (lo + hi) / 2.0;
    if values == [] {
      x := mid;
    } else if values[0] <= mid {
      x := RealOutside(values[1..], mid, hi);
    } else {
      x := RealOutside(values[1..], lo, mid);
    }
  }

  ghost predicate SomeBetween(e: Expr, lo: real, hi: real, want: bool)
    requires e.Compare? ==> e.value.Some?
  {
    exists x: real :: lo <= x <= hi && Passes(e, x) == want
  }

  /** On a test alone the simplifier is sharp: it allows just what some coordinate of the interval gives. */
  lemma TestSharp(g: Guarantee, e: Expr, d: nat, want: bool)
    requires IsTest(e, d) && d < |g| && g[d].Some? && g[d].value.0 <= g[d].value.1
    ensures !Simplify(g, e).unknown
    ensures Simplify(g, e).Has(Bool(want)) <==> SomeBetween(e, g[d].value.0, g[d].value.1, want)
  {
    var lo, hi := g[d].value.0, g[d].value.1;
    assert SomeBetween(e, lo, hi, Passes(e, lo)) && SomeBetween(e, lo, hi, Passes(e, hi));
    match e
    case Compare(_, op, v) =>
      if lo <= v.value <= hi { assert SomeBetween(e, lo, hi, Passes(e, v.value)); }
    case IsIn(_, values) =>
      if i :| 0 <= i < |values| && lo <= values[i] <= hi { assert SomeBetween(e, lo, hi, Passes(e, values[i])); }
      if lo < hi {
        var x := RealOutside(values, lo, hi);
        assert SomeBetween(e, lo, hi, Passes(e, x));
      }
  }

  /** A missing coordinate makes every comparison NULL; a NaN is unequal to any value and compares as nothing else. */
  lemma MissingCell(t: Table, data: DataColumns, d: nat, op: Comparison, v: real, row: Row)
    requires t.Valid() && IsRow(t, row) && d < |t.dims| && t.dims[d].coords[row[d]].NaN?
    ensures t.dims[d].nullable ==> Eval(t, data, Compare(d, op, Some(v)), row) == Null
    ensures !t.dims[d].nullable ==>
              && Eval(t, data, Compare(d, op, Some(v)), row) != Null
              && (Eval(t, data, Compare(d, op, Some(v)), row) == True <==> op == NotEqual)
  {}

  // ---------------------------------------------------------------------
  // Which filters are counted exactly
  // ---------------------------------------------------------------------

  /** No NULL literal: only comparisons with values, and data columns. */
  predicate NoNullLiterals(e: Expr) {
    match e
    case Literal(truth) => truth != Null
    case Compare(_, _, value) => value.Some?
    case IsIn(_, _) => true
    case Data(_) => true
    case And(a, b) => NoNullLiterals(a) && NoNullLiterals(b)
    case Or(a, b) => NoNullLiterals(a) && NoNullLiterals(b)
    case Not(a) => NoNullLiterals(a)
  }

  /** Where the simplifier allows such a filter to be NULL, it allows it to be true and to be false. */
  lemma {:induction false} NullIsUndecided(g: Guarantee, e: Expr)
    requires NoNullLiterals(e) && Simplify(g, e).unknown
    ensures Simplify(g, e).yes && Simplify(g, e).no
  {
    match e
    case And(a, b) =>
      if Simplify(g, a).unknown { NullIsUndecided(g, a); }
      if Simplify(g, b).unknown { NullIsUndecided(g, b); }
    case Or(a, b) =>
      if Simplify(g, a).unknown { NullIsUndecided(g, a); }
      if Simplify(g, b).unknown { NullIsUndecided(g, b); }
    case Not(a) =>
      NullIsUndecided(g, a);
    case _ =>
  }

  /** The filter with its NULLs read as false. */
  function Decided(t: Table, data: DataColumns, e: Expr): Filter {
    (row: Row) => if Eval(t, data, e, row) == True then True else False
  }

  /** So nothing is proven where such a filter may be NULL: its negation stays satisfiable there. */
  lemma DecidedIsSound(t: Table, data: DataColumns, e: Expr)
    requires t.Valid() && NoNullLiterals(e)
    ensures Sound(SatisfiableBy(e), t, Decided(t, data, e), True)
    ensures Sound(SatisfiableBy(Not(e)), t, Decided(t, data, e), False)
  {
    forall g: Guarantee, row: Row | IsRow(t, row) && Holds(t, g, row)
      ensures Decided(t, data, e)(row) == True ==> SatisfiableBy(e)(g) != Unsatisfiable
      ensures Decided(t, data, e)(row) == False ==> SatisfiableBy(Not(e))(g) != Unsatisfiable
    {
      SimplifySound(t, data, g, e, row);
      if Simplify(g, e).unknown { NullIsUndecided(g, e); }
    }
  }

  /**
   A filter without NULL literals is counted exactly, on any chunking, any coordinates and any data:
   where it may be NULL nothing is proven.
   */
  method CountFilter(dataset: PushdownDataset, data: DataColumns, e: Expr) returns (count: nat)
    requires dataset.Valid() && NoNullLiterals(e)
    modifies dataset, dataset.Indexes()
    ensures dataset.Valid() && fresh(dataset.Indexes() - old(dataset.Indexes()))
    ensures count == |Matching(AllRows(dataset.t), FilterOf(dataset.t, data, e), True)|
  {
    SimplifierIsSound(dataset.t, data, e);
    DecidedIsSound(dataset.t, data, e);
    ProvenNotFalse(dataset.t, SatisfiableBy(e), SatisfiableBy(Not(e)), Decided(dataset.t, data, e));
    count := dataset.CountRows(FilterOf(dataset.t, data, e), SatisfiableBy(e), SatisfiableBy(Not(e)));
  }

  /** From the table alone: two counts over one new dataset, the second with the indexes of the first. */
  method CountTwice(t: Table, data: DataColumns, e: Expr, again: Expr) returns (first: nat, second: nat)
    requires t.Valid() && NoNullLiterals(e) && NoNullLiterals(again)
    ensures first == |Matching(AllRows(t), FilterOf(t, data, e), True)|
    ensures second == |Matching(AllRows(t), FilterOf(t, data, again), True)|
  {
    var dataset := new PushdownDataset(t);
    first := CountFilter(dataset, data, e);
    second := CountFilter(dataset, data, again);
  }
}
