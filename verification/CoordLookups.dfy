/**
 From the value of a coordinate back to its position on the axis: by rounding on uniformly spaced
 axes, by a hash table on others, and by binary search where neither applies.
 */
module CoordLookups {
  import opened CoordTables
  import opened Grid
  import opened Wrappers

  /**
   An axis: its values, whether its type is numeric, and whether a hash index can hold that type.
   Values of ordered types that are not numbers are represented by any order-preserving numbering.
   */
  datatype Axis = Axis(values: seq<Coord>, numeric: bool, hashable: bool)

  // ---------------------------------------------------------------------
  // Affine axes
  // ---------------------------------------------------------------------

  function Abs(x: real): real {
    if x < 0.0 then -x else x
  }

  /** Rounding to the nearest integer, halves to even. */
  function Rint(x: real): int {
    var f := x.Floor;
    var rest := x - f as real;
    if rest < 0.5 then f
    else if rest > 0.5 then f + 1
    else if f % 2 == 0 then f else f + 1
  }

  function Predicted(origin: real, step: real, i: nat): real {
    origin + step * i as real
  }

  predicate NearPrediction(values: seq<Coord>, origin: real, step: real, i: nat)
    requires i < |values|
  {
    values[i].Num? && Abs(values[i].v - Predicted(origin, step, i)) <= 0.25 * Abs(step)
  }

  /** Origin and step of a uniformly spaced axis; a NaN anywhere disqualifies it. */
  function AffineAxis(axis: Axis): Option<(real, real)> {
    var n := |axis.values|;
    if !axis.numeric || n < 2 then None
    else if axis.values[0].NaN? || axis.values[n - 1].NaN? then None
    else
      var origin := axis.values[0].v;
      var step := (axis.values[n - 1].v - origin) / (n - 1) as real;
      if step == 0.0 then None
      else if forall i :: 0 <= i < n ==> NearPrediction(axis.values, origin, step, i) then Some((origin, step))
      else None
  }

  lemma MulLess(a: real, b: real, c: real)
    requires a < b && c > 0.0
    ensures a * c < b * c
  {}

  lemma MulDiv(x: real, s: real)
    requires s != 0.0
    ensures (x / s) * s == x
  {}

  lemma MulNegate(a: real, b: real)
    ensures a * (-b) == -(a * b)
    ensures (-a) * b == -(a * b)
  {}

  lemma QuarterAbove(q: real, s: real)
    requires s != 0.0 && Abs(q * s) <= 0.25 * Abs(s)
    ensures q <= 0.25
  {
    if q > 0.25 {
      MulNegate(q, s);
      if s > 0.0 { MulLess(0.25, q, s); } else { MulLess(0.25, q, -s); }
    }
  }

  /** A deviation of at most a quarter step is at most a quarter after dividing by the step. */
  lemma QuarterStep(x: real, s: real, i: real)
    requires s != 0.0 && Abs(x - s * i) <= 0.25 * Abs(s)
    ensures -0.25 <= x / s - i <= 0.25
  {
    var q := x / s - i;
    MulDiv(x, s);
    assert q * s == x - s * i;
    MulNegate(q, s);
    QuarterAbove(q, s);
    QuarterAbove(-q, s);
  }

  lemma RintNear(x: real, i: int)
    requires -0.25 <= x - i as real <= 0.25
    ensures Rint(x) == i
  {}

  function AffinePosition(origin: real, step: real, v: Coord): (p: Option<int>)
    requires step != 0.0
  {
    if v.NaN? then None else Some(Rint((v.v - origin) / step))
  }

  /** Rounding recovers every position of an affine axis. */
  lemma AffineRecovers(axis: Axis, i: nat)
    requires AffineAxis(axis).Some? && i < |axis.values|
    ensures var (origin, step) := AffineAxis(axis).value;
            step != 0.0 && AffinePosition(origin, step, axis.values[i]) == Some(i)
  {
    var (origin, step) := AffineAxis(axis).value;
    assert NearPrediction(axis.values, origin, step, i);
    QuarterStep(axis.values[i].v - origin, step, i as real);
    RintNear((axis.values[i].v - origin) / step, i);
  }

  // ---------------------------------------------------------------------
  // Hash index and sorted search
  // ---------------------------------------------------------------------

  /** First position holding the value, with NaN equal to itself. */
  function FirstPosition(values: seq<Coord>, v: Coord): (p: Option<int>)
    ensures p.Some? <==> v in values
    ensures p.Some? ==> 0 <= p.value < |values| && values[p.value] == v
  {
    if values == [] then None
    else if values[0] == v then Some(0)
    else
      assert values == [values[0]] + values[1..];
      match FirstPosition(values[1..], v)
      case None => None
      case Some(p) => Some(p + 1)
  }

  /** Ascending order with NaN last. */
  predicate Before(a: Coord, b: Coord) {
    a.Num? && (b.NaN? || a.v < b.v)
  }

  ghost predicate Sorted(values: seq<Coord>) {
    forall i, j :: 0 <= i < j < |values| ==> !Before(values[j], values[i])
  }

  function Gather(values: seq<Coord>, order: seq<nat>): (g: seq<Coord>)
    requires forall k :: 0 <= k < |order| ==> order[k] < |values|
    ensures |g| == |order|
  {
    seq(|order|, k requires 0 <= k < |order| => values[order[k]])
  }

  /** Insertion of position `i` after those whose values do not come later. */
  function Insert(values: seq<Coord>, order: seq<nat>, i: nat): (r: seq<nat>)
    requires i < |values| && (forall k :: 0 <= k < |order| ==> order[k] < |values|)
    ensures |r| == |order| + 1
    ensures forall k :: 0 <= k < |r| ==> r[k] < |values|
    ensures forall j :: j in r <==> j == i || j in order
    decreases |order|
  {
    if order == [] || !Before(values[i], values[order[|order| - 1]]) then order + [i]
    else Insert(values, order[..|order| - 1], i) + [order[|order| - 1]]
  }

  lemma {:induction false} InsertSorted(values: seq<Coord>, order: seq<nat>, i: nat)
    requires i < |values| && (forall k :: 0 <= k < |order| ==> order[k] < |values|)
    requires Sorted(Gather(values, order))
    ensures Sorted(Gather(values, Insert(values, order, i)))
    decreases |order|
  {
    var last := |order| - 1;
    if order == [] || !Before(values[i], values[order[last]]) {
      var r := order + [i];
      forall a, b | 0 <= a < b < |r| ensures !Before(Gather(values, r)[b], Gather(values, r)[a]) {
        if b < |order| {
          assert !Before(Gather(values, order)[b], Gather(values, order)[a]);
        } else if a < last {
          assert !Before(Gather(values, order)[last], Gather(values, order)[a]);
        }
      }
    } else {
      var init := order[..last];
      assert Gather(values, init) == Gather(values, order)[..last];
      InsertSorted(values, init, i);
      var r := Insert(values, init, i);
      forall k | 0 <= k < |r| ensures !Before(values[order[last]], values[r[k]]) {
        if r[k] != i {
          assert r[k] in init;
          var j :| 0 <= j < |init| && init[j] == r[k];
          assert !Before(Gather(values, order)[last], Gather(values, order)[j]);
        }
      }
      SortedSnoc(values, r, order[last]);
    }
  }

  lemma SortedSnoc(values: seq<Coord>, r: seq<nat>, p: nat)
    requires p < |values| && (forall k :: 0 <= k < |r| ==> r[k] < |values|)
    requires Sorted(Gather(values, r))
    requires forall k :: 0 <= k < |r| ==> !Before(values[p], values[r[k]])
    ensures Sorted(Gather(values, r + [p]))
  {
    forall a, b | 0 <= a < b < |r| + 1 ensures !Before(Gather(values, r + [p])[b], Gather(values, r + [p])[a]) {
      if b < |r| { assert !Before(Gather(values, r)[b], Gather(values, r)[a]); }
    }
  }

  function Argsort(values: seq<Coord>, n: nat): (order: seq<nat>)
    requires n <= |values|
    ensures forall k :: 0 <= k < |order| ==> order[k] < |values|
    ensures Sorted(Gather(values, order))
    ensures forall i :: 0 <= i < n ==> i in order
  {
    if n == 0 then []
    else
      InsertSorted(values, Argsort(values, n - 1), n - 1);
      Insert(values, Argsort(values, n - 1), n - 1)
  }

  /** `np.searchsorted`: how many leading values come before `v`. */
  function SearchSorted(sorted: seq<Coord>, v: Coord): (p: nat)
    ensures p <= |sorted|
    ensures forall i :: 0 <= i < p ==> Before(sorted[i], v)
    ensures p < |sorted| ==> !Before(sorted[p], v)
  {
    if sorted == [] || !Before(sorted[0], v) then 0 else 1 + SearchSorted(sorted[1..], v)
  }

  lemma SearchFinds(sorted: seq<Coord>, v: Coord)
    requires Sorted(sorted) && v in sorted
    ensures SearchSorted(sorted, v) < |sorted| && sorted[SearchSorted(sorted, v)] == v
  {
    var p := SearchSorted(sorted, v);
    var i :| 0 <= i < |sorted| && sorted[i] == v;
    assert p <= i;
    if p < i { assert !Before(sorted[i], sorted[p]); }
  }

  function SortedPosition(values: seq<Coord>, v: Coord): (p: Option<int>)
    ensures v in values ==> p.Some? && 0 <= p.value < |values| && values[p.value] == v
  {
    var order := Argsort(values, |values|);
    var sorted := Gather(values, order);
    var p := SearchSorted(sorted, v);
    assert v in values ==> v in sorted by {
      if v in values {
        var i :| 0 <= i < |values| && values[i] == v;
        assert i in order;
        var k :| 0 <= k < |order| && order[k] == i;
        assert sorted[k] == v;
      }
    }
    if v in values then SearchFinds(sorted, v); Some(order[p])
    else if p < |order| then Some(order[p])
    else None
  }

  // ---------------------------------------------------------------------
  // The lookup
  // ---------------------------------------------------------------------

  /** The position of a value by the strategy its axis allows; `None` raises. */
  function PositionFor(axis: Axis, v: Coord): Option<int> {
    match AffineAxis(axis)
    case Some((origin, step)) => AffinePosition(origin, step, v)
    case None =>
      if axis.hashable && Unique(axis.values) then FirstPosition(axis.values, v)
      else SortedPosition(axis.values, v)
  }

  predicate Unique(values: seq<Coord>) {
    forall i, j :: 0 <= i < j < |values| ==> values[i] != values[j]
  }

  /** Whatever the strategy, a value of the axis is resolved to a position that holds it. */
  lemma LookupHolds(axis: Axis, v: Coord)
    requires v in axis.values
    ensures PositionFor(axis, v).Some?
    ensures 0 <= PositionFor(axis, v).value < |axis.values| && axis.values[PositionFor(axis, v).value] == v
  {
    if AffineAxis(axis).Some? {
      var i :| 0 <= i < |axis.values| && axis.values[i] == v;
      AffineRecovers(axis, i);
    }
  }

  /** On an axis of distinct values every strategy inverts the axis: all three agree. */
  lemma LookupRecovers(axis: Axis, i: nat)
    requires Distinct(axis.values) && i < |axis.values|
    ensures PositionFor(axis, axis.values[i]) == Some(i)
    ensures FirstPosition(axis.values, axis.values[i]) == Some(i)
    ensures SortedPosition(axis.values, axis.values[i]) == Some(i)
    ensures AffineAxis(axis).Some? ==>
              AffinePosition(AffineAxis(axis).value.0, AffineAxis(axis).value.1, axis.values[i]) == Some(i)
  {
    assert axis.values[i] in axis.values;
    LookupHolds(axis, axis.values[i]);
    if AffineAxis(axis).Some? { AffineRecovers(axis, i); }
  }

  /** On an irregular axis with unique values a missing value is detected rather than misplaced. */
  lemma MissingDetected(axis: Axis, v: Coord)
    requires AffineAxis(axis).None? && axis.hashable && Unique(axis.values)
    ensures PositionFor(axis, v).None? <==> v !in axis.values
  {}
}
