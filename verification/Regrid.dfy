/**
 Regridding as a sparse join: a table of bilinear weights joined to the source grid and summed per
 target. The join gives bilinear interpolation, for a target grid and for scattered target points.
 */
module Regrid {
  import opened Grid

  // ---------------------------------------------------------------------
  // Linear interpolation along one axis
  // ---------------------------------------------------------------------

  ghost predicate Ascending(src: seq<real>) {
    forall i, j :: 0 <= i < j < |src| ==> src[i] < src[j]
  }

  /** `np.searchsorted`: how many leading points lie below `x`. */
  function SearchSorted(src: seq<real>, x: real): (p: nat)
    ensures p <= |src|
    ensures forall i :: 0 <= i < p ==> src[i] < x
    ensures p < |src| ==> src[p] >= x
  {
    if src == [] || src[0] >= x then 0 else 1 + SearchSorted(src[1..], x)
  }

  /** The interval used for `x`, clipped to the axis. */
  function IntervalOf(src: seq<real>, x: real): (i: nat)
    requires |src| >= 2
    ensures i + 1 < |src|
  {
    var i := SearchSorted(src, x) - 1;
    if i < 0 then 0 else if i > |src| - 2 then |src| - 2 else i
  }

  /** How far into its interval `x` lies. */
  function Fraction(src: seq<real>, x: real): real
    requires |src| >= 2 && Ascending(src)
  {
    var i := IntervalOf(src, x);
    (x - src[i]) / (src[i + 1] - src[i])
  }

  /** Linear interpolation of values on the axis. */
  function Lerp(src: seq<real>, x: real, f: nat -> real): real
    requires |src| >= 2 && Ascending(src)
  {
    var i := IntervalOf(src, x);
    (1.0 - Fraction(src, x)) * f(i) + Fraction(src, x) * f(i + 1)
  }

  lemma DivTimes(a: real, b: real)
    requires b != 0.0
    ensures (a / b) * b == a
  {}

  lemma LerpArithmetic(h: real, a: real, b: real, p: real, q: real, x: real)
    requires h * (q - p) == x - p
    ensures (1.0 - h) * (a + b * p) + h * (a + b * q) == a + b * x
  {
    assert h * (b * q) - h * (b * p) == b * (h * (q - p)) by {
      assert h * (b * q) == b * (h * q) && h * (b * p) == b * (h * p);
      assert h * (q - p) == h * q - h * p;
    }
  }

  function Line(a: real, b: real, x: real): real {
    a + b * x
  }

  predicate IsLinear(f: nat -> real, src: seq<real>, a: real, b: real) {
    forall i :: 0 <= i < |src| ==> f(i) == Line(a, b, src[i])
  }

  /** Linear fields are interpolated exactly, inside the axis and beyond its ends. */
  lemma LerpLinear(src: seq<real>, x: real, f: nat -> real, a: real, b: real)
    requires |src| >= 2 && Ascending(src) && IsLinear(f, src, a, b)
    ensures Lerp(src, x, f) == Line(a, b, x)
  {
    var i := IntervalOf(src, x);
    DivTimes(x - src[i], src[i + 1] - src[i]);
    LerpArithmetic(Fraction(src, x), a, b, src[i], src[i + 1], x);
  }

  lemma DivSign(a: real, b: real)
    requires b > 0.0
    ensures a / b >= 0.0 <==> a >= 0.0
    ensures a / b <= 1.0 <==> a <= b
  {
    DivTimes(a, b);
    if a / b < 0.0 { assert (a / b) * b < 0.0; }
    if a / b > 1.0 { assert (a / b) * b > b; }
  }

  /** The weights are between zero and one exactly for targets within the axis; others are extrapolated. */
  lemma WeightsConvex(src: seq<real>, x: real)
    requires |src| >= 2 && Ascending(src)
    ensures 0.0 <= Fraction(src, x) <= 1.0 <==> src[0] <= x <= src[|src| - 1]
  {
    var i := IntervalOf(src, x);
    DivSign(x - src[i], src[i + 1] - src[i]);
  }

  // ---------------------------------------------------------------------
  // One-dimensional weights
  // ---------------------------------------------------------------------

  datatype Triple = Triple(t: nat, s: nat, w: real)

  function PairAt(src: seq<real>, dst: seq<real>, t: nat): seq<Triple>
    requires |src| >= 2 && Ascending(src) && t < |dst|
  {
    var i := IntervalOf(src, dst[t]);
    [Triple(t, i, 1.0 - Fraction(src, dst[t])), Triple(t, i + 1, Fraction(src, dst[t]))]
  }

  function Triples(src: seq<real>, dst: seq<real>, n: nat): seq<Triple>
    requires |src| >= 2 && Ascending(src) && n <= |dst|
  {
    if n == 0 then [] else Triples(src, dst, n - 1) + PairAt(src, dst, n - 1)
  }

  method LinearWeights(src: seq<real>, dst: seq<real>) returns (triples: seq<Triple>)
    requires |src| >= 2 && Ascending(src)
    ensures triples == Triples(src, dst, |dst|)
  {
    triples := [];
    for t := 0 to |dst|
      invariant triples == Triples(src, dst, t)
    {
      var i := IntervalOf(src, dst[t]);
      var span := src[i + 1] - src[i];
      var hi := (dst[t] - src[i]) / span;
      triples := triples + [Triple(t, i, 1.0 - hi)] + [Triple(t, i + 1, hi)];
      assert triples == Triples(src, dst, t) + PairAt(src, dst, t);
    }
  }

  function ScaledIf(c: bool, w: real, v: real): real {
    if c then w * v else 0.0
  }

  /** What one triple adds to the sum at `x`. */
  function Weighted(q: Triple, dst: seq<real>, x: real, f: nat -> real): real
    requires q.t < |dst|
  {
    ScaledIf(dst[q.t] == x, q.w, f(q.s))
  }

  /** Weighted sum of `f` over the triples of the targets at `x`. */
  function WeightedSum(triples: seq<Triple>, dst: seq<real>, x: real, f: nat -> real): real
    requires forall k :: 0 <= k < |triples| ==> triples[k].t < |dst|
  {
    if triples == [] then 0.0
    else
      var last := triples[|triples| - 1];
      WeightedSum(triples[..|triples| - 1], dst, x, f) + Weighted(last, dst, x, f)
  }

  ghost predicate InRange(triples: seq<Triple>, src: seq<real>, dst: seq<real>) {
    forall k :: 0 <= k < |triples| ==> triples[k].t < |dst| && triples[k].s < |src|
  }

  lemma {:induction false} TriplesInRange(src: seq<real>, dst: seq<real>, n: nat)
    requires |src| >= 2 && Ascending(src) && n <= |dst|
    ensures InRange(Triples(src, dst, n), src, dst)
  {
    if n > 0 { TriplesInRange(src, dst, n - 1); }
  }

  lemma WeightedPair(triples: seq<Triple>, dst: seq<real>, x: real, f: nat -> real, a: Triple, b: Triple)
    requires (forall k :: 0 <= k < |triples| ==> triples[k].t < |dst|) && a.t < |dst| && b.t < |dst|
    ensures var all := triples + [a, b];
            && (forall k :: 0 <= k < |all| ==> all[k].t < |dst|)
            && WeightedSum(all, dst, x, f)
                == WeightedSum(triples, dst, x, f) + Weighted(a, dst, x, f) + Weighted(b, dst, x, f)
  {
    var all := triples + [a, b];
    assert all[..|all| - 1] == triples + [a];
    assert (triples + [a])[..|triples|] == triples;
  }

  function LerpIf(src: seq<real>, dst: seq<real>, n: nat, x: real, f: nat -> real): real
    requires |src| >= 2 && Ascending(src) && n < |dst|
  {
    if dst[n] == x then Lerp(src, dst[n], f) else 0.0
  }

  lemma PairIsLerp(src: seq<real>, dst: seq<real>, n: nat, x: real, f: nat -> real)
    requires |src| >= 2 && Ascending(src) && n < |dst|
    ensures var pair := PairAt(src, dst, n);
            pair[0].t == pair[1].t == n
            && LerpIf(src, dst, n, x, f) == Weighted(pair[0], dst, x, f) + Weighted(pair[1], dst, x, f)
  {}

  /** The weighted sum over the triples of the first `n` targets. */
  ghost function SumAt(src: seq<real>, dst: seq<real>, n: nat, x: real, f: nat -> real): real
    requires |src| >= 2 && Ascending(src) && n <= |dst|
  {
    TriplesInRange(src, dst, n);
    WeightedSum(Triples(src, dst, n), dst, x, f)
  }

  lemma WeightedStep(src: seq<real>, dst: seq<real>, n: nat, x: real, f: nat -> real)
    requires |src| >= 2 && Ascending(src) && n < |dst|
    ensures SumAt(src, dst, n + 1, x, f) == SumAt(src, dst, n, x, f) + LerpIf(src, dst, n, x, f)
  {
    TriplesInRange(src, dst, n);
    var a, b := PairAt(src, dst, n)[0], PairAt(src, dst, n)[1];
    PairIsLerp(src, dst, n, x, f);
    WeightedPair(Triples(src, dst, n), dst, x, f, a, b);
    assert Triples(src, dst, n + 1) == Triples(src, dst, n) + [a, b];
  }

  lemma SameTarget(src: seq<real>, dst: seq<real>, n: nat, u: nat, f: nat -> real)
    requires |src| >= 2 && Ascending(src) && Distinct(dst) && n < |dst| && u < |dst|
    ensures LerpIf(src, dst, n, dst[u], f) == if u == n then Lerp(src, dst[u], f) else 0.0
  {
    if u != n { assert dst[u] != dst[n]; }
  }

  /** With distinct targets, the weighted sum at one of them interpolates there. */
  lemma {:induction false} SumIsLerp(src: seq<real>, dst: seq<real>, n: nat, u: nat, f: nat -> real)
    requires |src| >= 2 && Ascending(src) && Distinct(dst) && n <= |dst| && u < |dst|
    ensures SumAt(src, dst, n, dst[u], f) == if u < n then Lerp(src, dst[u], f) else 0.0
  {
    if n > 0 {
      SumIsLerp(src, dst, n - 1, u, f);
      WeightedStep(src, dst, n - 1, dst[u], f);
      SameTarget(src, dst, n - 1, u, f);
    }
  }

  lemma WeightedSumIsLerp(src: seq<real>, dst: seq<real>, u: nat, f: nat -> real)
    requires |src| >= 2 && Ascending(src) && Distinct(dst) && u < |dst|
    ensures InRange(Triples(src, dst, |dst|), src, dst)
    ensures WeightedSum(Triples(src, dst, |dst|), dst, dst[u], f) == Lerp(src, dst[u], f)
  {
    TriplesInRange(src, dst, |dst|);
    SumIsLerp(src, dst, |dst|, u, f);
  }

  // ---------------------------------------------------------------------
  // The weight table and the join
  // ---------------------------------------------------------------------

  /** A pair of a target cell and a source cell, each named by its two coordinates. */
  datatype WeightRow = WeightRow(dst: (real, real), src: (real, real), weight: real)

  datatype SourceRow = SourceRow(at: (real, real), value: real)

  type Place = (real, real)

  /** What a weight multiplies, by the source cell it names. */
  type Reading = Place -> real

  /** Sum of the values of the source rows a weight row joins with. */
  function Matched(source: seq<SourceRow>, at: Place): real {
    if source == [] then 0.0
    else
      var last := source[|source| - 1];
      Matched(source[..|source| - 1], at) + if last.at == at then last.value else 0.0
  }

  function MatchedIn(source: seq<SourceRow>): Reading {
    (at: Place) => Matched(source, at)
  }

  function Contribution(row: WeightRow, val: Reading, target: Place): real {
    if row.dst == target then val(row.src) * row.weight else 0.0
  }

  function SumBy(weights: seq<WeightRow>, val: Reading, target: Place): real {
    if weights == [] then 0.0
    else SumBy(weights[..|weights| - 1], val, target) + Contribution(weights[|weights| - 1], val, target)
  }

  /** SUM(value * weight) of the group of one target, over the join of weights and source. */
  function JoinSum(weights: seq<WeightRow>, source: seq<SourceRow>, target: Place): real {
    SumBy(weights, MatchedIn(source), target)
  }

  /** SUM(weight) of the rows of one target. */
  function TotalWeight(weights: seq<WeightRow>, target: Place): real {
    if weights == [] then 0.0
    else
      var last := weights[|weights| - 1];
      TotalWeight(weights[..|weights| - 1], target) + if last.dst == target then last.weight else 0.0
  }

  const UNIT: Reading := (at: Place) => 1.0

  lemma {:induction false} TotalIsSum(weights: seq<WeightRow>, target: Place)
    ensures TotalWeight(weights, target) == SumBy(weights, UNIT, target)
  {
    if weights != [] { TotalIsSum(weights[..|weights| - 1], target); }
  }

  /** At the cells of the source grid, the reading is the field. */
  ghost predicate Reads(val: Reading, xs: seq<real>, ys: seq<real>, f: (nat, nat) -> real) {
    forall i, j :: 0 <= i < |xs| && 0 <= j < |ys| ==> val((xs[i], ys[j])) == f(i, j)
  }

  /** The source table: one row for each grid cell, in any order. */
  ghost predicate IsSource(source: seq<SourceRow>, xs: seq<real>, ys: seq<real>, f: (nat, nat) -> real) {
    && (forall k, l :: 0 <= k < l < |source| ==> source[k].at != source[l].at)
    && forall i, j :: 0 <= i < |xs| && 0 <= j < |ys| ==> SourceRow((xs[i], ys[j]), f(i, j)) in source
  }

  lemma {:induction false} NotMatched(source: seq<SourceRow>, at: (real, real))
    requires forall k :: 0 <= k < |source| ==> source[k].at != at
    ensures Matched(source, at) == 0.0
  {
    if source != [] { NotMatched(source[..|source| - 1], at); }
  }

  lemma {:induction false} MatchedOnce(source: seq<SourceRow>, row: SourceRow)
    requires forall k, l :: 0 <= k < l < |source| ==> source[k].at != source[l].at
    requires row in source
    ensures Matched(source, row.at) == row.value
  {
    var n := |source| - 1;
    if source[n] == row {
      NotMatched(source[..n], row.at);
    } else {
      var k :| 0 <= k < |source| && source[k] == row;
      assert source[..n][k] == row;
      MatchedOnce(source[..n], row);
    }
  }

  /** A source table reads as the field it holds. */
  lemma SourceReads(source: seq<SourceRow>, xs: seq<real>, ys: seq<real>, f: (nat, nat) -> real)
    requires IsSource(source, xs, ys, f)
    ensures Reads(MatchedIn(source), xs, ys, f)
  {
    forall i, j | 0 <= i < |xs| && 0 <= j < |ys| ensures MatchedIn(source)((xs[i], ys[j])) == f(i, j) {
      MatchedOnce(source, SourceRow((xs[i], ys[j]), f(i, j)));
    }
  }

  lemma {:induction false} SumByConcat(a: seq<WeightRow>, b: seq<WeightRow>, val: Reading, target: Place)
    ensures SumBy(a + b, val, target) == SumBy(a, val, target) + SumBy(b, val, target)
  {
    if b == [] {
      assert a + b == a;
    } else {
      assert (a + b)[..|a + b| - 1] == a + b[..|b| - 1];
      SumByConcat(a, b[..|b| - 1], val, target);
    }
  }

  // ---------------------------------------------------------------------
  // Target grids
  // ---------------------------------------------------------------------

  datatype Grids = Grids(slat: seq<real>, slon: seq<real>, tlat: seq<real>, tlon: seq<real>) {

    ghost predicate Valid() {
      |slat| >= 2 && |slon| >= 2 && Ascending(slat) && Ascending(slon)
    }

    /** Whether each target cell is one pair of target positions. */
    ghost predicate DistinctTargets() {
      Distinct(tlat) && Distinct(tlon)
    }

    predicate Names(p: Triple, q: Triple) {
      p.t < |tlat| && p.s < |slat| && q.t < |tlon| && q.s < |slon|
    }

    function Row(p: Triple, q: Triple): WeightRow
      requires Names(p, q)
    {
      WeightRow((tlat[p.t], tlon[q.t]), (slat[p.s], slon[q.s]), p.w * q.w)
    }

    function RowsFor(p: Triple, qs: seq<Triple>): seq<WeightRow>
      requires forall k :: 0 <= k < |qs| ==> Names(p, qs[k])
    {
      if qs == [] then [] else RowsFor(p, qs[..|qs| - 1]) + [Row(p, qs[|qs| - 1])]
    }

    function Table(ps: seq<Triple>, qs: seq<Triple>): seq<WeightRow>
      requires forall i, k :: 0 <= i < |ps| && 0 <= k < |qs| ==> Names(ps[i], qs[k])
    {
      if ps == [] then []
      else Table(ps[..|ps| - 1], qs) + RowsFor(ps[|ps| - 1], qs)
    }
  }

  /** The five columns of the weight table, appended to side by side. */
  datatype Columns = Columns(dstLat: seq<real>, dstLon: seq<real>, srcLat: seq<real>, srcLon: seq<real>,
                             weight: seq<real>) {

    ghost predicate Holds(rows: seq<WeightRow>) {
      && |dstLat| == |dstLon| == |srcLat| == |srcLon| == |weight| == |rows|
      && forall k :: 0 <= k < |rows| ==>
           rows[k] == WeightRow((dstLat[k], dstLon[k]), (srcLat[k], srcLon[k]), weight[k])
    }

    function Append(a: real, b: real, c: real, d: real, w: real): Columns {
      Columns(dstLat + [a], dstLon + [b], srcLat + [c], srcLon + [d], weight + [w])
    }
  }

  method BilinearWeightTable(g: Grids) returns (table: Columns)
    requires g.Valid()
    ensures InRange(Triples(g.slat, g.tlat, |g.tlat|), g.slat, g.tlat)
    ensures InRange(Triples(g.slon, g.tlon, |g.tlon|), g.slon, g.tlon)
    ensures table.Holds(g.Table(Triples(g.slat, g.tlat, |g.tlat|), Triples(g.slon, g.tlon, |g.tlon|)))
  {
    var ps := LinearWeights(g.slat, g.tlat);
    var qs := LinearWeights(g.slon, g.tlon);
    TriplesInRange(g.slat, g.tlat, |g.tlat|);
    TriplesInRange(g.slon, g.tlon, |g.tlon|);
    table := FillTable(g, ps, qs);
  }

  method FillTable(g: Grids, ps: seq<Triple>, qs: seq<Triple>) returns (table: Columns)
    requires InRange(ps, g.slat, g.tlat) && InRange(qs, g.slon, g.tlon)
    ensures table.Holds(g.Table(ps, qs))
  {
    table := Columns([], [], [], [], []);
    for i := 0 to |ps|
      invariant table.Holds(g.Table(ps[..i], qs))
    {
      assert ps[..i + 1][..i] == ps[..i];
      table := FillRows(g, table, g.Table(ps[..i], qs), ps[i], qs);
    }
    assert ps[..|ps|] == ps;
  }

  /** The inner loop: one row for each longitude triple. */
  method FillRows(g: Grids, before: Columns, ghost rows: seq<WeightRow>, p: Triple, qs: seq<Triple>)
    returns (table: Columns)
    requires before.Holds(rows) && p.t < |g.tlat| && p.s < |g.slat| && InRange(qs, g.slon, g.tlon)
    ensures table.Holds(rows + g.RowsFor(p, qs))
  {
    table := before;
    for k := 0 to |qs|
      invariant table.Holds(rows + g.RowsFor(p, qs[..k]))
    {
      assert qs[..k + 1][..k] == qs[..k];
      var q := qs[k];
      ghost var held := rows + g.RowsFor(p, qs[..k]);
      table := table.Append(g.tlat[p.t], g.tlon[q.t], g.slat[p.s], g.slon[q.s], p.w * q.w);
      assert table.Holds(held + [g.Row(p, q)]);
      assert rows + g.RowsFor(p, qs[..k + 1]) == held + [g.Row(p, q)];
    }
    assert qs[..|qs|] == qs;
  }

  /** A field along one line of the grid. */
  function Along(f: (nat, nat) -> real, i: nat): nat -> real {
    (j: nat) => f(i, j)
  }

  /** The interpolated value on each line of the grid. */
  function Lines(ys: seq<real>, y: real, f: (nat, nat) -> real): nat -> real
    requires |ys| >= 2 && Ascending(ys)
  {
    (i: nat) => Lerp(ys, y, Along(f, i))
  }

  /** Bilinear interpolation of a field on the source grid. */
  function Bilinear(xs: seq<real>, ys: seq<real>, x: real, y: real, f: (nat, nat) -> real): real
    requires |xs| >= 2 && Ascending(xs) && |ys| >= 2 && Ascending(ys)
  {
    Lerp(xs, x, Lines(ys, y, f))
  }

  lemma SumBySnoc(rows: seq<WeightRow>, row: WeightRow, val: Reading, target: Place)
    ensures SumBy(rows + [row], val, target) == SumBy(rows, val, target) + Contribution(row, val, target)
  {
    assert (rows + [row])[..|rows|] == rows;
  }

  lemma MulShuffle(f: real, a: real, b: real)
    ensures f * (a * b) == a * (b * f)
  {}

  /** One joined row: the latitude weight times what its longitude triple contributes. */
  lemma RowContribution(g: Grids, val: Reading, f: (nat, nat) -> real, p: Triple, q: Triple, lat: real, lon: real)
    requires Reads(val, g.slat, g.slon, f) && g.Names(p, q)
    ensures Contribution(g.Row(p, q), val, (lat, lon))
         == ScaledIf(g.tlat[p.t] == lat, p.w, Weighted(q, g.tlon, lon, Along(f, p.s)))
  {
    MulShuffle(f(p.s, q.s), p.w, q.w);
  }

  lemma WeightedSnoc(triples: seq<Triple>, dst: seq<real>, x: real, f: nat -> real)
    requires triples != [] && forall k :: 0 <= k < |triples| ==> triples[k].t < |dst|
    ensures WeightedSum(triples, dst, x, f)
         == WeightedSum(triples[..|triples| - 1], dst, x, f) + Weighted(triples[|triples| - 1], dst, x, f)
  {}

  lemma RowsForSnoc(g: Grids, val: Reading, p: Triple, qs: seq<Triple>, target: Place)
    requires qs != [] && p.t < |g.tlat| && p.s < |g.slat| && InRange(qs, g.slon, g.tlon)
    ensures SumBy(g.RowsFor(p, qs), val, target)
         == SumBy(g.RowsFor(p, qs[..|qs| - 1]), val, target) + Contribution(g.Row(p, qs[|qs| - 1]), val, target)
  {
    SumBySnoc(g.RowsFor(p, qs[..|qs| - 1]), g.Row(p, qs[|qs| - 1]), val, target);
  }

  lemma ScaledSum(c: bool, w: real, v: real, u: real)
    ensures ScaledIf(c, w, v + u) == ScaledIf(c, w, v) + ScaledIf(c, w, u)
  {}

  /** The rows of one latitude triple contribute its weight times the sum along the longitudes. */
  lemma {:induction false} RowsForSum(g: Grids, val: Reading, f: (nat, nat) -> real, p: Triple, qs: seq<Triple>,
                                      lat: real, lon: real)
    requires Reads(val, g.slat, g.slon, f) && p.t < |g.tlat| && p.s < |g.slat| && InRange(qs, g.slon, g.tlon)
    ensures SumBy(g.RowsFor(p, qs), val, (lat, lon))
         == ScaledIf(g.tlat[p.t] == lat, p.w, WeightedSum(qs, g.tlon, lon, Along(f, p.s)))
  {
    if qs != [] {
      var init, q := qs[..|qs| - 1], qs[|qs| - 1];
      RowsForSum(g, val, f, p, init, lat, lon);
      RowsForSnoc(g, val, p, qs, (lat, lon));
      RowContribution(g, val, f, p, q, lat, lon);
      WeightedSnoc(qs, g.tlon, lon, Along(f, p.s));
      ScaledSum(g.tlat[p.t] == lat, p.w,
                WeightedSum(init, g.tlon, lon, Along(f, p.s)), Weighted(q, g.tlon, lon, Along(f, p.s)));
    }
  }

  lemma TableSnoc(g: Grids, val: Reading, ps: seq<Triple>, qs: seq<Triple>, target: Place)
    requires ps != [] && InRange(ps, g.slat, g.tlat) && InRange(qs, g.slon, g.tlon)
    ensures SumBy(g.Table(ps, qs), val, target)
         == SumBy(g.Table(ps[..|ps| - 1], qs), val, target) + SumBy(g.RowsFor(ps[|ps| - 1], qs), val, target)
  {
    SumByConcat(g.Table(ps[..|ps| - 1], qs), g.RowsFor(ps[|ps| - 1], qs), val, target);
  }

  ghost predicate IsInner(inner: nat -> real, f: (nat, nat) -> real, qs: seq<Triple>, dst: seq<real>, x: real)
    requires forall k :: 0 <= k < |qs| ==> qs[k].t < |dst|
  {
    forall i :: inner(i) == WeightedSum(qs, dst, x, Along(f, i))
  }

  lemma RowsForIsWeighted(g: Grids, val: Reading, f: (nat, nat) -> real, p: Triple, qs: seq<Triple>,
                          lat: real, lon: real, inner: nat -> real)
    requires Reads(val, g.slat, g.slon, f) && p.t < |g.tlat| && p.s < |g.slat| && InRange(qs, g.slon, g.tlon)
    requires IsInner(inner, f, qs, g.tlon, lon)
    ensures SumBy(g.RowsFor(p, qs), val, (lat, lon)) == Weighted(p, g.tlat, lat, inner)
  {
    RowsForSum(g, val, f, p, qs, lat, lon);
    assert inner(p.s) == WeightedSum(qs, g.tlon, lon, Along(f, p.s));
  }

  /** The whole table sums first along the longitudes, then along the latitudes. */
  lemma {:induction false} TableSum(g: Grids, val: Reading, f: (nat, nat) -> real, ps: seq<Triple>, qs: seq<Triple>,
                                    lat: real, lon: real, inner: nat -> real)
    requires Reads(val, g.slat, g.slon, f) && InRange(ps, g.slat, g.tlat) && InRange(qs, g.slon, g.tlon)
    requires IsInner(inner, f, qs, g.tlon, lon)
    ensures SumBy(g.Table(ps, qs), val, (lat, lon)) == WeightedSum(ps, g.tlat, lat, inner)
  {
    if ps != [] {
      var init, p := ps[..|ps| - 1], ps[|ps| - 1];
      TableSum(g, val, f, init, qs, lat, lon, inner);
      RowsForIsWeighted(g, val, f, p, qs, lat, lon, inner);
      TableSnoc(g, val, ps, qs, (lat, lon));
      WeightedSnoc(ps, g.tlat, lat, inner);
    }
  }

  lemma LerpSame(src: seq<real>, x: real, f: nat -> real, h: nat -> real)
    requires |src| >= 2 && Ascending(src)
    requires forall i :: 0 <= i < |src| ==> f(i) == h(i)
    ensures Lerp(src, x, f) == Lerp(src, x, h)
  {}

  /** With either reading, the sum over a target's rows is bilinear interpolation of what is read. */
  lemma SumIsBilinear(g: Grids, val: Reading, f: (nat, nat) -> real, t: nat, u: nat)
    requires g.Valid() && g.DistinctTargets() && Reads(val, g.slat, g.slon, f) && t < |g.tlat| && u < |g.tlon|
    ensures InRange(Triples(g.slat, g.tlat, |g.tlat|), g.slat, g.tlat)
    ensures InRange(Triples(g.slon, g.tlon, |g.tlon|), g.slon, g.tlon)
    ensures SumBy(g.Table(Triples(g.slat, g.tlat, |g.tlat|), Triples(g.slon, g.tlon, |g.tlon|)), val,
                  (g.tlat[t], g.tlon[u]))
         == Bilinear(g.slat, g.slon, g.tlat[t], g.tlon[u], f)
  {
    var ps, qs := Triples(g.slat, g.tlat, |g.tlat|), Triples(g.slon, g.tlon, |g.tlon|);
    TriplesInRange(g.slat, g.tlat, |g.tlat|);
    TriplesInRange(g.slon, g.tlon, |g.tlon|);
    var inner := (i: nat) => WeightedSum(qs, g.tlon, g.tlon[u], Along(f, i));
    TableSum(g, val, f, ps, qs, g.tlat[t], g.tlon[u], inner);
    WeightedSumIsLerp(g.slat, g.tlat, t, inner);
    forall i: nat ensures inner(i) == Lerp(g.slon, g.tlon[u], Along(f, i)) {
      WeightedSumIsLerp(g.slon, g.tlon, u, Along(f, i));
    }
    LerpSame(g.slat, g.tlat[t], inner, Lines(g.slon, g.tlon[u], f));
  }

  /** The join and the sum give bilinear interpolation at every target cell, for every field. */
  lemma JoinIsBilinear(g: Grids, source: seq<SourceRow>, f: (nat, nat) -> real, t: nat, u: nat)
    requires g.Valid() && g.DistinctTargets() && IsSource(source, g.slat, g.slon, f) && t < |g.tlat| && u < |g.tlon|
    ensures InRange(Triples(g.slat, g.tlat, |g.tlat|), g.slat, g.tlat)
    ensures InRange(Triples(g.slon, g.tlon, |g.tlon|), g.slon, g.tlon)
    ensures JoinSum(g.Table(Triples(g.slat, g.tlat, |g.tlat|), Triples(g.slon, g.tlon, |g.tlon|)), source,
                    (g.tlat[t], g.tlon[u]))
         == Bilinear(g.slat, g.slon, g.tlat[t], g.tlon[u], f)
  {
    SourceReads(source, g.slat, g.slon, f);
    SumIsBilinear(g, MatchedIn(source), f, t, u);
  }

  /** The polynomial a + b*x + c*y + d*x*y. */
  function Field(a: real, b: real, c: real, d: real, x: real, y: real): real {
    Line(a + c * y, b + d * y, x)
  }

  predicate IsBilinearField(f: (nat, nat) -> real, xs: seq<real>, ys: seq<real>, a: real, b: real, c: real, d: real) {
    forall i, j :: 0 <= i < |xs| && 0 <= j < |ys| ==> f(i, j) == Field(a, b, c, d, xs[i], ys[j])
  }

  lemma Regroup(a: real, b: real, c: real, d: real, x: real, y: real)
    ensures Field(a, b, c, d, x, y) == Line(a + b * x, c + d * x, y)
  {
    assert (c + d * x) * y == c * y + d * x * y;
    assert (b + d * y) * x == b * x + d * y * x;
    assert d * x * y == d * y * x;
  }

  lemma LineExact(xs: seq<real>, ys: seq<real>, y: real, a: real, b: real, c: real, d: real, f: (nat, nat) -> real,
                  i: nat)
    requires |ys| >= 2 && Ascending(ys) && i < |xs| && IsBilinearField(f, xs, ys, a, b, c, d)
    ensures Lerp(ys, y, Along(f, i)) == Field(a, b, c, d, xs[i], y)
  {
    forall j | 0 <= j < |ys| ensures Along(f, i)(j) == Line(a + b * xs[i], c + d * xs[i], ys[j]) {
      Regroup(a, b, c, d, xs[i], ys[j]);
    }
    LerpLinear(ys, y, Along(f, i), a + b * xs[i], c + d * xs[i]);
    Regroup(a, b, c, d, xs[i], y);
  }

  /** The lines of such a field interpolate to a linear function across them. */
  lemma LinesLinear(xs: seq<real>, ys: seq<real>, x: real, y: real, a: real, b: real, c: real, d: real,
                    f: (nat, nat) -> real)
    returns (p: real, q: real)
    requires |ys| >= 2 && Ascending(ys) && IsBilinearField(f, xs, ys, a, b, c, d)
    ensures IsLinear(Lines(ys, y, f), xs, p, q)
    ensures Line(p, q, x) == Field(a, b, c, d, x, y)
  {
    p, q := a + c * y, b + d * y;
    forall i | 0 <= i < |xs| ensures Lines(ys, y, f)(i) == Field(a, b, c, d, xs[i], y) {
      LineExact(xs, ys, y, a, b, c, d, f, i);
    }
  }

  /** Fields a + b*x + c*y + d*x*y are reproduced exactly. */
  lemma BilinearExact(xs: seq<real>, ys: seq<real>, x: real, y: real, a: real, b: real, c: real, d: real,
                      f: (nat, nat) -> real)
    requires |xs| >= 2 && Ascending(xs) && |ys| >= 2 && Ascending(ys)
    requires IsBilinearField(f, xs, ys, a, b, c, d)
    ensures Bilinear(xs, ys, x, y, f) == Field(a, b, c, d, x, y)
  {
    var p, q := LinesLinear(xs, ys, x, y, a, b, c, d, f);
    LerpLinear(xs, x, Lines(ys, y, f), p, q);
  }

  const ONE: (nat, nat) -> real := (i: nat, j: nat) => 1.0

  /** The weight column of every target sums to one. */
  lemma WeightsSumToOne(g: Grids, t: nat, u: nat)
    requires g.Valid() && g.DistinctTargets() && t < |g.tlat| && u < |g.tlon|
    ensures InRange(Triples(g.slat, g.tlat, |g.tlat|), g.slat, g.tlat)
    ensures InRange(Triples(g.slon, g.tlon, |g.tlon|), g.slon, g.tlon)
    ensures TotalWeight(g.Table(Triples(g.slat, g.tlat, |g.tlat|), Triples(g.slon, g.tlon, |g.tlon|)),
                        (g.tlat[t], g.tlon[u])) == 1.0
  {
    SumIsBilinear(g, UNIT, ONE, t, u);
    TotalIsSum(g.Table(Triples(g.slat, g.tlat, |g.tlat|), Triples(g.slon, g.tlon, |g.tlon|)), (g.tlat[t], g.tlon[u]));
    BilinearExact(g.slat, g.slon, g.tlat[t], g.tlon[u], 1.0, 0.0, 0.0, 0.0, ONE);
  }

  // ---------------------------------------------------------------------
  // Scattered targets
  // ---------------------------------------------------------------------

  /** A target cell by its own coordinates, and where it lies on the source grid. */
  datatype Point = Point(dst: (real, real), x: real, y: real)

  predicate InFootprint(sx: seq<real>, sy: seq<real>, p: Point)
    requires sx != [] && sy != []
  {
    sx[0] <= p.x <= sx[|sx| - 1] && sy[0] <= p.y <= sy[|sy| - 1]
  }

  /** The footprint is where both fractions are between zero and one, so that no weight is negative. */
  lemma FootprintConvex(sx: seq<real>, sy: seq<real>, p: Point)
    requires |sx| >= 2 && |sy| >= 2 && Ascending(sx) && Ascending(sy)
    ensures InFootprint(sx, sy, p) <==>
              0.0 <= Fraction(sx, p.x) <= 1.0 && 0.0 <= Fraction(sy, p.y) <= 1.0
  {
    WeightsConvex(sx, p.x);
    WeightsConvex(sy, p.y);
  }

  /** The weights of a stencil, corner by corner. */
  function CornerWeights(tx: real, ty: real): (w: seq<real>)
    ensures |w| == 4
  {
    [(1.0 - tx) * (1.0 - ty), (1.0 - tx) * ty, tx * (1.0 - ty), tx * ty]
  }

  function Corners(sx: seq<real>, sy: seq<real>, dst: (real, real), i: nat, j: nat, w: seq<real>): seq<WeightRow>
    requires i + 1 < |sx| && j + 1 < |sy| && |w| == 4
  {
    [WeightRow(dst, (sx[i], sy[j]), w[0]), WeightRow(dst, (sx[i], sy[j + 1]), w[1]),
     WeightRow(dst, (sx[i + 1], sy[j]), w[2]), WeightRow(dst, (sx[i + 1], sy[j + 1]), w[3])]
  }

  /** The four corners around a point with their weights. */
  function Stencil(sx: seq<real>, sy: seq<real>, p: Point): (rows: seq<WeightRow>)
    requires |sx| >= 2 && |sy| >= 2 && Ascending(sx) && Ascending(sy)
    ensures forall k :: 0 <= k < |rows| ==> rows[k].dst == p.dst
  {
    Corners(sx, sy, p.dst, IntervalOf(sx, p.x), IntervalOf(sy, p.y),
            CornerWeights(Fraction(sx, p.x), Fraction(sy, p.y)))
  }

  function Stencils(sx: seq<real>, sy: seq<real>, points: seq<Point>): seq<WeightRow>
    requires |sx| >= 2 && |sy| >= 2 && Ascending(sx) && Ascending(sy)
  {
    if points == [] then []
    else
      var last := points[|points| - 1];
      Stencils(sx, sy, points[..|points| - 1]) + if InFootprint(sx, sy, last) then Stencil(sx, sy, last) else []
  }

  /** One row per target and corner; targets outside the source footprint contribute none. */
  method WarpWeightTable(sx: seq<real>, sy: seq<real>, points: seq<Point>) returns (table: Columns)
    requires |sx| >= 2 && |sy| >= 2 && Ascending(sx) && Ascending(sy)
    ensures table.Holds(Stencils(sx, sy, points))
  {
    table := Columns([], [], [], [], []);
    for k := 0 to |points|
      invariant table.Holds(Stencils(sx, sy, points[..k]))
    {
      assert points[..k + 1][..k] == points[..k];
      if InFootprint(sx, sy, points[k]) {
        table := AppendStencil(sx, sy, points[k], table, Stencils(sx, sy, points[..k]));
      }
    }
    assert points[..|points|] == points;
  }

  /** One side of a point along an axis, with its weight. */
  function Side(src: seq<real>, x: real, k: nat): (nat, real)
    requires |src| >= 2 && Ascending(src) && k < 2
  {
    if k == 0 then (IntervalOf(src, x), 1.0 - Fraction(src, x)) else (IntervalOf(src, x) + 1, Fraction(src, x))
  }

  /** The row of one of the four corners. */
  function CornerRow(sx: seq<real>, sy: seq<real>, p: Point, a: nat, b: nat): WeightRow
    requires |sx| >= 2 && |sy| >= 2 && Ascending(sx) && Ascending(sy) && a < 2 && b < 2
  {
    var (i, wx) := Side(sx, p.x, a);
    var (j, wy) := Side(sy, p.y, b);
    WeightRow(p.dst, (sx[i], sy[j]), wx * wy)
  }

  lemma StencilAt(sx: seq<real>, sy: seq<real>, p: Point, a: nat, b: nat)
    requires |sx| >= 2 && |sy| >= 2 && Ascending(sx) && Ascending(sy) && a < 2 && b < 2
    ensures Stencil(sx, sy, p)[2 * a + b] == CornerRow(sx, sy, p, a, b)
  {}

  method AppendStencil(sx: seq<real>, sy: seq<real>, p: Point, before: Columns, ghost rows: seq<WeightRow>)
    returns (table: Columns)
    requires |sx| >= 2 && |sy| >= 2 && Ascending(sx) && Ascending(sy) && before.Holds(rows)
    ensures table.Holds(rows + Stencil(sx, sy, p))
  {
    table := before;
    ghost var stencil, held := Stencil(sx, sy, p), rows;
    for a := 0 to 2
      invariant table.Holds(held) && held == rows + stencil[..2 * a]
    {
      for b := 0 to 2
        invariant table.Holds(held) && held == rows + stencil[..2 * a + b]
      {
        StencilAt(sx, sy, p, a, b);
        table := AppendRow(table, held, CornerRow(sx, sy, p, a, b));
        held := held + [stencil[2 * a + b]];
      }
    }
    assert stencil[..4] == stencil;
  }

  method AppendRow(before: Columns, ghost rows: seq<WeightRow>, row: WeightRow) returns (table: Columns)
    requires before.Holds(rows)
    ensures table.Holds(rows + [row])
  {
    table := before.Append(row.dst.0, row.dst.1, row.src.0, row.src.1, row.weight);
  }

  /** Interpolation between four corner values. */
  function Blend(tx: real, ty: real, a: real, b: real, c: real, d: real): real {
    Mix(tx, Mix(ty, a, b), Mix(ty, c, d))
  }

  function CornerSum(w: seq<real>, a: real, b: real, c: real, d: real): real
    requires |w| == 4
  {
    a * w[0] + b * w[1] + c * w[2] + d * w[3]
  }

  lemma CornersArithmetic(tx: real, ty: real, a: real, b: real, c: real, d: real)
    ensures CornerSum(CornerWeights(tx, ty), a, b, c, d) == Blend(tx, ty, a, b, c, d)
  {
    MulShuffle(a, 1.0 - tx, 1.0 - ty);
    MulShuffle(b, 1.0 - tx, ty);
    MulShuffle(c, tx, 1.0 - ty);
    MulShuffle(d, tx, ty);
  }

  lemma FourRows(a: WeightRow, b: WeightRow, c: WeightRow, d: WeightRow, val: Reading, target: Place)
    ensures SumBy([a, b, c, d], val, target)
         == Contribution(a, val, target) + Contribution(b, val, target)
          + Contribution(c, val, target) + Contribution(d, val, target)
  {
    assert [a, b, c, d] == [] + [a] + [b] + [c] + [d];
    SumBySnoc([], a, val, target);
    SumBySnoc([] + [a], b, val, target);
    SumBySnoc([] + [a] + [b], c, val, target);
    SumBySnoc([] + [a] + [b] + [c], d, val, target);
  }

  lemma CornerContribution(val: Reading, sx: seq<real>, sy: seq<real>, f: (nat, nat) -> real,
                           dst: (real, real), i: nat, j: nat, w: real)
    requires Reads(val, sx, sy, f) && i < |sx| && j < |sy|
    ensures Contribution(WeightRow(dst, (sx[i], sy[j]), w), val, dst) == f(i, j) * w
  {}

  function Mix(t: real, a: real, b: real): real {
    (1.0 - t) * a + t * b
  }

  lemma LineValue(sy: seq<real>, y: real, f: (nat, nat) -> real, i: nat)
    requires |sy| >= 2 && Ascending(sy)
    ensures Lines(sy, y, f)(i) == Mix(Fraction(sy, y), f(i, IntervalOf(sy, y)), f(i, IntervalOf(sy, y) + 1))
  {
    assert Lines(sy, y, f)(i) == Lerp(sy, y, Along(f, i));
  }

  lemma BilinearUnfolds(sx: seq<real>, sy: seq<real>, x: real, y: real, f: (nat, nat) -> real)
    requires |sx| >= 2 && |sy| >= 2 && Ascending(sx) && Ascending(sy)
    ensures var i, j, tx, ty := IntervalOf(sx, x), IntervalOf(sy, y), Fraction(sx, x), Fraction(sy, y);
            Bilinear(sx, sy, x, y, f) == Mix(tx, Mix(ty, f(i, j), f(i, j + 1)), Mix(ty, f(i + 1, j), f(i + 1, j + 1)))
  {
    LineValue(sy, y, f, IntervalOf(sx, x));
    LineValue(sy, y, f, IntervalOf(sx, x) + 1);
  }

  lemma CornersSum(sx: seq<real>, sy: seq<real>, val: Reading, f: (nat, nat) -> real, dst: (real, real),
                   i: nat, j: nat, w: seq<real>)
    requires i + 1 < |sx| && j + 1 < |sy| && |w| == 4 && Reads(val, sx, sy, f)
    ensures SumBy(Corners(sx, sy, dst, i, j, w), val, dst)
         == CornerSum(w, f(i, j), f(i, j + 1), f(i + 1, j), f(i + 1, j + 1))
  {
    var rows := Corners(sx, sy, dst, i, j, w);
    FourRows(rows[0], rows[1], rows[2], rows[3], val, dst);
    CornerContribution(val, sx, sy, f, dst, i, j, w[0]);
    CornerContribution(val, sx, sy, f, dst, i, j + 1, w[1]);
    CornerContribution(val, sx, sy, f, dst, i + 1, j, w[2]);
    CornerContribution(val, sx, sy, f, dst, i + 1, j + 1, w[3]);
  }

  lemma StencilSum(sx: seq<real>, sy: seq<real>, val: Reading, f: (nat, nat) -> real, p: Point)
    requires |sx| >= 2 && |sy| >= 2 && Ascending(sx) && Ascending(sy) && Reads(val, sx, sy, f)
    ensures SumBy(Stencil(sx, sy, p), val, p.dst) == Bilinear(sx, sy, p.x, p.y, f)
  {
    var i, j, tx, ty := IntervalOf(sx, p.x), IntervalOf(sy, p.y), Fraction(sx, p.x), Fraction(sy, p.y);
    CornersSum(sx, sy, val, f, p.dst, i, j, CornerWeights(tx, ty));
    CornersArithmetic(tx, ty, f(i, j), f(i, j + 1), f(i + 1, j), f(i + 1, j + 1));
    BilinearUnfolds(sx, sy, p.x, p.y, f);
  }

  lemma {:induction false} NoContribution(rows: seq<WeightRow>, val: Reading, target: Place)
    requires forall k :: 0 <= k < |rows| ==> rows[k].dst != target
    ensures SumBy(rows, val, target) == 0.0
  {
    if rows != [] { NoContribution(rows[..|rows| - 1], val, target); }
  }

  ghost predicate HasGroup(rows: seq<WeightRow>, target: Place) {
    exists k :: 0 <= k < |rows| && rows[k].dst == target
  }

  ghost predicate DistinctPoints(points: seq<Point>) {
    forall k, l :: 0 <= k < l < |points| ==> points[k].dst != points[l].dst
  }

  lemma StencilsSnoc(sx: seq<real>, sy: seq<real>, val: Reading, points: seq<Point>, target: Place)
    requires |sx| >= 2 && |sy| >= 2 && Ascending(sx) && Ascending(sy) && points != []
    ensures var init, last := points[..|points| - 1], points[|points| - 1];
            var rows := if InFootprint(sx, sy, last) then Stencil(sx, sy, last) else [];
            && Stencils(sx, sy, points) == Stencils(sx, sy, init) + rows
            && SumBy(Stencils(sx, sy, points), val, target)
               == SumBy(Stencils(sx, sy, init), val, target) + SumBy(rows, val, target)
            && (HasGroup(Stencils(sx, sy, points), target) <==>
                HasGroup(Stencils(sx, sy, init), target) || HasGroup(rows, target))
  {
    var init, last := points[..|points| - 1], points[|points| - 1];
    var rows := if InFootprint(sx, sy, last) then Stencil(sx, sy, last) else [];
    SumByConcat(Stencils(sx, sy, init), rows, val, target);
    var all := Stencils(sx, sy, init) + rows;
    if HasGroup(rows, target) {
      var k :| 0 <= k < |rows| && rows[k].dst == target;
      assert all[|Stencils(sx, sy, init)| + k].dst == target;
    }
    if HasGroup(Stencils(sx, sy, init), target) {
      var k :| 0 <= k < |Stencils(sx, sy, init)| && Stencils(sx, sy, init)[k].dst == target;
      assert all[k].dst == target;
    }
  }

  lemma {:induction false} WarpSum(sx: seq<real>, sy: seq<real>, val: Reading, f: (nat, nat) -> real,
                                   points: seq<Point>, p: Point)
    requires |sx| >= 2 && |sy| >= 2 && Ascending(sx) && Ascending(sy) && Reads(val, sx, sy, f)
    requires DistinctPoints(points)
    requires forall k :: 0 <= k < |points| && points[k].dst == p.dst ==> points[k] == p
    ensures HasGroup(Stencils(sx, sy, points), p.dst) <==> p in points && InFootprint(sx, sy, p)
    ensures SumBy(Stencils(sx, sy, points), val, p.dst)
         == if p in points && InFootprint(sx, sy, p) then Bilinear(sx, sy, p.x, p.y, f) else 0.0
  {
    if points != [] {
      var init, last := points[..|points| - 1], points[|points| - 1];
      WarpSum(sx, sy, val, f, init, p);
      StencilsSnoc(sx, sy, val, points, p.dst);
      assert points == init + [last];
      if last == p {
        assert p !in init;
        StencilSum(sx, sy, val, f, p);
        assert Stencil(sx, sy, p)[0].dst == p.dst;
      } else if InFootprint(sx, sy, last) {
        NoContribution(Stencil(sx, sy, last), val, p.dst);
      }
    }
  }

  /** The join interpolates at every target inside the footprint, and has no group for any other. */
  lemma WarpIsBilinear(sx: seq<real>, sy: seq<real>, source: seq<SourceRow>, f: (nat, nat) -> real,
                       points: seq<Point>, p: Point)
    requires |sx| >= 2 && |sy| >= 2 && Ascending(sx) && Ascending(sy) && IsSource(source, sx, sy, f)
    requires DistinctPoints(points)
    requires forall k :: 0 <= k < |points| && points[k].dst == p.dst ==> points[k] == p
    ensures HasGroup(Stencils(sx, sy, points), p.dst) <==> p in points && InFootprint(sx, sy, p)
    ensures JoinSum(Stencils(sx, sy, points), source, p.dst)
         == if p in points && InFootprint(sx, sy, p) then Bilinear(sx, sy, p.x, p.y, f) else 0.0
  {
    SourceReads(source, sx, sy, f);
    WarpSum(sx, sy, MatchedIn(source), f, points, p);
  }

  /** There too, the weight column of a target inside the footprint sums to one. */
  lemma WarpWeightsSumToOne(sx: seq<real>, sy: seq<real>, points: seq<Point>, k: nat)
    requires |sx| >= 2 && |sy| >= 2 && Ascending(sx) && Ascending(sy)
    requires DistinctPoints(points) && k < |points|
    ensures TotalWeight(Stencils(sx, sy, points), points[k].dst) == if InFootprint(sx, sy, points[k]) then 1.0 else 0.0
  {
    var p := points[k];
    WarpSum(sx, sy, UNIT, ONE, points, p);
    TotalIsSum(Stencils(sx, sy, points), p.dst);
    BilinearExact(sx, sy, p.x, p.y, 1.0, 0.0, 0.0, 0.0, ONE);
  }
}
