/**
 Counting without reading: cells of the surviving chunk grid are classified level by level as
 pruned, proven or boundary. This module is the specification of that recursion and the proof
 that it accounts for every row exactly once.
 */
module StrictPartition {
  import opened Grid
  import opened ChunkGrids
  import opened CoordTables
  import opened Wrappers

  const LEVEL_BUDGET: nat := 4096
  const MAX_DEPTH: nat := 6

  // ---------------------------------------------------------------------
  // How many buckets per dimension
  // ---------------------------------------------------------------------

  /** The first dimension with the most buckets. */
  function Widest(ks: seq<nat>): (w: nat)
    requires ks != []
    ensures w < |ks|
    ensures forall d :: 0 <= d < |ks| ==> ks[d] <= ks[w]
    ensures forall d :: 0 <= d < w ==> ks[d] < ks[w]
  {
    if |ks| == 1 then 0
    else
      var v := Widest(ks[..|ks| - 1]);
      if ks[|ks| - 1] > ks[v] then |ks| - 1 else v
  }

  /** Remove one factor of a product. */
  lemma {:induction false} ProdFactor(ks: seq<nat>, w: nat)
    requires w < |ks|
    ensures Prod(ks) == ks[w] * Prod(ks[..w] + ks[w + 1..])
  {
    ProdConcat(ks[..w], ks[w..]);
    assert ks == ks[..w] + ks[w..];
    assert ks[w..][1..] == ks[w + 1..];
    ProdConcat(ks[..w], ks[w + 1..]);
    MulSwap(Prod(ks[..w]), ks[w], Prod(ks[w + 1..]));
  }

  lemma MulSwap(a: nat, b: nat, c: nat)
    ensures a * (b * c) == b * (a * c)
  {
    MulAssoc(a, b, c);
    MulAssoc(b, a, c);
  }

  /** Halving a factor of at least two makes the product smaller, but by no more than a third part. */
  lemma ProdHalved(ks: seq<nat>, w: nat)
    requires AllPositive(ks) && w < |ks| && ks[w] >= 2
    ensures var half := ks[w := ks[w] / 2];
            AllPositive(half) && Prod(half) < Prod(ks) && 3 * Prod(half) >= Prod(ks)
  {
    var half := ks[w := ks[w] / 2];
    var rest := ks[..w] + ks[w + 1..];
    ProdFactor(ks, w);
    ProdFactor(half, w);
    assert half[..w] == ks[..w] && half[w + 1..] == ks[w + 1..];
    ProdPositive(rest);
    HalvedFactor(ks[w], Prod(rest));
  }

  lemma HalvedFactor(k: nat, p: nat)
    requires k >= 2 && p >= 1
    ensures (k / 2) * p < k * p && 3 * ((k / 2) * p) >= k * p
  {
    MulMono(k / 2 + 1, k, p);
    MulSucc(k / 2, p);
    MulMono(k, 3 * (k / 2), p);
    MulAssoc(3, k / 2, p);
  }

  /** Halve the widest dimension until a level has at most `LEVEL_BUDGET` products. */
  function Shrunk(ks: seq<nat>): (r: seq<nat>)
    requires AllPositive(ks)
    ensures |r| == |ks|
    decreases Prod(ks)
  {
    if Prod(ks) <= LEVEL_BUDGET then ks
    else
      var w := Widest(ks);
      if ks[w] == 1 then ks
      else
        ProdHalved(ks, w);
        Shrunk(ks[w := ks[w] / 2])
  }

  lemma {:induction false} OnesProduct(ks: seq<nat>)
    requires forall d :: 0 <= d < |ks| ==> ks[d] == 1
    ensures Prod(ks) == 1
  {
    if ks != [] { OnesProduct(ks[1..]); }
  }

  /**
   A level never builds more than `LEVEL_BUDGET` fragments; and when it has to bucket at all, it
   still builds more than one, so some dimension is split.
   */
  lemma {:induction false} ShrunkLevel(ks: seq<nat>)
    requires AllPositive(ks)
    ensures var r := Shrunk(ks);
            && AllPositive(r)
            && Prod(r) <= 4096
            && (forall d :: 0 <= d < |ks| ==> r[d] <= ks[d])
            && (Prod(ks) <= 4096 ==> r == ks)
            && (Prod(ks) > 4096 ==> 3 * Prod(r) > 4096)
    decreases Prod(ks)
  {
    if Prod(ks) > LEVEL_BUDGET {
      var w := Widest(ks);
      if ks[w] == 1 {
        OnesProduct(ks);
      } else {
        ProdHalved(ks, w);
        ShrunkLevel(ks[w := ks[w] / 2]);
      }
    }
  }

  lemma SomeSplit(ks: seq<nat>)
    requires AllPositive(ks) && Prod(ks) > 1
    ensures exists d :: 0 <= d < |ks| && ks[d] >= 2
  {
    if forall d :: 0 <= d < |ks| ==> ks[d] == 1 { OnesProduct(ks); }
  }

  // ---------------------------------------------------------------------
  // Subcells
  // ---------------------------------------------------------------------

  /** A valid cell with at least one chunk on every dimension. */
  ghost predicate Live(t: Table, cell: Cell) {
    t.Valid() && ValidCell(t, cell) && forall d :: 0 <= d < |cell| ==> cell[d] != []
  }

  predicate Bucketing(cell: Cell, ks: seq<nat>) {
    |ks| == |cell| && forall d :: 0 <= d < |cell| ==> 1 <= ks[d] <= |cell[d]|
  }

  /** The bucket product named by a combination of bucket numbers. */
  function Subcell(cell: Cell, ks: seq<nat>, combo: seq<nat>): (sub: Cell)
    requires |ks| == |cell| && InGrid(combo, ks)
    ensures |sub| == |cell|
  {
    seq(|cell|, d requires 0 <= d < |cell| => Part(cell[d], ks[d], combo[d]))
  }

  lemma SubcellLive(t: Table, cell: Cell, ks: seq<nat>, combo: seq<nat>)
    requires Live(t, cell) && Bucketing(cell, ks) && InGrid(combo, ks)
    ensures Live(t, Subcell(cell, ks, combo))
  {
    var sub := Subcell(cell, ks, combo);
    forall d | 0 <= d < |cell| ensures ValidChunks(sub[d], |t.dims[d].sizes|) && sub[d] != [] {
      PartOf(cell[d], ks[d], combo[d]);
      PartLength(cell[d], ks[d], combo[d]);
      forall i | 0 <= i < |sub[d]| ensures sub[d][i] < |t.dims[d].sizes| {
        assert sub[d][i] in cell[d];
      }
    }
  }

  /** Which bucket product a row of the cell belongs to. */
  ghost function ComboOf(t: Table, cell: Cell, ks: seq<nat>, row: Row): (combo: seq<nat>)
    requires Live(t, cell) && Bucketing(cell, ks) && row in Rows(t, cell)
    ensures InGrid(combo, ks)
  {
    RowInCell(t, cell, row);
    seq(|cell|, d requires 0 <= d < |cell| => HomePart(cell[d], ks[d], ChunkOf(t.dims[d].sizes, row[d])))
  }

  ghost predicate OnlyInPart(xs: seq<nat>, k: nat, x: nat, b: nat) {
    b < k && forall a :: 0 <= a < k ==> (x in Part(xs, k, a) <==> a == b)
  }

  lemma SplitHasMember(xs: seq<nat>, k: nat, x: nat)
    requires k > 0 && Distinct(xs) && x in xs
    ensures exists b :: OnlyInPart(xs, k, x, b)
  {
    var b := SplitMembers(xs, k, x);
    assert OnlyInPart(xs, k, x, b);
  }

  ghost function HomePart(xs: seq<nat>, k: nat, x: nat): (b: nat)
    requires k > 0 && Distinct(xs) && x in xs
    ensures OnlyInPart(xs, k, x, b)
  {
    SplitHasMember(xs, k, x);
    var b :| OnlyInPart(xs, k, x, b);
    b
  }

  /** Every row of a cell is in exactly one of its bucket products. */
  lemma RowInSubcell(t: Table, cell: Cell, ks: seq<nat>, combo: seq<nat>, row: Row)
    requires Live(t, cell) && Bucketing(cell, ks) && InGrid(combo, ks)
    ensures row in Rows(t, Subcell(cell, ks, combo)) <==> row in Rows(t, cell) && ComboOf(t, cell, ks, row) == combo
  {
    var sub := Subcell(cell, ks, combo);
    RowInCell(t, sub, row);
    RowInCell(t, cell, row);
    if row in Rows(t, sub) {
      forall d | 0 <= d < |cell| ensures ChunkOf(t.dims[d].sizes, row[d]) in cell[d] {
        PartOf(cell[d], ks[d], combo[d]);
        assert ChunkOf(t.dims[d].sizes, row[d]) in sub[d];
      }
      forall d | 0 <= d < |cell| ensures ComboOf(t, cell, ks, row)[d] == combo[d] {
        assert ChunkOf(t.dims[d].sizes, row[d]) in sub[d];
      }
    }
    if row in Rows(t, cell) && ComboOf(t, cell, ks, row) == combo {
      forall d | 0 <= d < |cell| ensures ChunkOf(t.dims[d].sizes, row[d]) in sub[d] {
        assert ComboOf(t, cell, ks, row)[d] == combo[d];
      }
    }
  }

  predicate AllSingle(cell: Cell) {
    forall d :: 0 <= d < |cell| ==> |cell[d]| == 1
  }

  /** Combinations of single chunks in a cell. */
  function Combos(cell: Cell): nat {
    Prod(Lens(cell))
  }

  lemma {:induction false} ProdSmaller(a: seq<nat>, b: seq<nat>)
    requires |a| == |b| && AllPositive(a)
    requires forall d :: 0 <= d < |a| ==> a[d] <= b[d]
    ensures 1 <= Prod(a) <= Prod(b)
    ensures (exists d :: 0 <= d < |a| && a[d] < b[d]) ==> Prod(a) < Prod(b)
  {
    ProdPositive(a);
    if a != [] {
      ProdSmaller(a[1..], b[1..]);
      MulBoth(a[0], b[0], Prod(a[1..]), Prod(b[1..]));
      if d :| 0 <= d < |a| && a[d] < b[d] {
        if d > 0 { assert a[1..][d - 1] < b[1..][d - 1]; }
      }
    }
  }

  lemma MulBoth(a: nat, b: nat, p: nat, q: nat)
    requires 1 <= a <= b && 1 <= p <= q
    ensures a * p <= b * q
    ensures a < b || p < q ==> a * p < b * q
  {
    MulMono(a, b, p);
    assert b * p <= b * q by { MulMono(p, q, b); }
    if a < b { MulMono(a + 1, b, p); MulSucc(a, p); }
    if p < q { MulMono(p + 1, q, b); MulSucc(p, b); }
  }

  /** A cell that is classified again has strictly fewer combinations than the one it came from. */
  lemma RecursionShrinks(t: Table, cell: Cell, combo: seq<nat>)
    requires Live(t, cell)
    requires var ks := Shrunk(Lens(cell));
             Bucketing(cell, ks) && InGrid(combo, ks) && !AllSingle(Subcell(cell, ks, combo))
    ensures Combos(Subcell(cell, Shrunk(Lens(cell)), combo)) < Combos(cell)
  {
    var ks := Shrunk(Lens(cell));
    ShrunkLevel(Lens(cell));
    SubcellLens(cell, ks, combo);
    if ks == Lens(cell) {
      forall e | 0 <= e < |cell| ensures |Subcell(cell, ks, combo)[e]| == 1 {
        PartLength(cell[e], ks[e], combo[e]);
      }
    }
    SomeSplit(ks);
    ProdSmaller(Lens(Subcell(cell, ks, combo)), Lens(cell));
  }

  lemma SubcellLens(cell: Cell, ks: seq<nat>, combo: seq<nat>)
    requires Bucketing(cell, ks) && InGrid(combo, ks)
    ensures var sub := Lens(Subcell(cell, ks, combo));
            forall a :: 0 <= a < |cell| ==> 1 <= sub[a] <= Lens(cell)[a] && (ks[a] >= 2 ==> sub[a] < Lens(cell)[a])
  {
    forall a | 0 <= a < |cell|
      ensures var sub := Lens(Subcell(cell, ks, combo));
              1 <= sub[a] <= Lens(cell)[a] && (ks[a] >= 2 ==> sub[a] < Lens(cell)[a])
    {
      PartLength(cell[a], ks[a], combo[a]);
    }
  }

  // ---------------------------------------------------------------------
  // Guarantees of a bucket product
  // ---------------------------------------------------------------------

  /** The smallest interval around two. */
  function Hull(a: (real, real), b: (real, real)): (real, real) {
    (if a.0 <= b.0 then a.0 else b.0, if b.1 <= a.1 then a.1 else b.1)
  }

  /** The smallest interval around several; nothing when one of them is missing. */
  function Hulls(spans: seq<Option<(real, real)>>): Option<(real, real)>
    requires spans != []
  {
    if |spans| == 1 then spans[0]
    else
      var rest := Hulls(spans[1..]);
      if spans[0].None? || rest.None? then None else Some(Hull(spans[0].value, rest.value))
  }

  /** The value interval of each chunk, missing where it has a NaN. */
  function ChunkSpans(dim: Dim, chunks: seq<nat>): (spans: seq<Option<(real, real)>>)
    requires dim.Valid() && Below(chunks, |dim.sizes|)
    ensures |spans| == |chunks|
  {
    seq(|chunks|, i requires 0 <= i < |chunks| => Interval(dim, chunks[i], chunks[i] + 1))
  }

  /** `[min, max]` over the chunks of a bucket; nothing on a non-numeric dimension or a NaN. */
  function BucketInterval(dim: Dim, chunks: seq<nat>): Option<(real, real)>
    requires dim.Valid() && chunks != [] && Below(chunks, |dim.sizes|)
  {
    if dim.prunable then Hulls(ChunkSpans(dim, chunks)) else None
  }

  predicate Inside(x: Coord, r: (real, real)) {
    x.Num? && r.0 <= x.v <= r.1
  }

  lemma {:induction false} HullsHold(spans: seq<Option<(real, real)>>, i: nat, x: Coord)
    requires i < |spans| && Hulls(spans).Some?
    ensures spans[i].Some? && (Inside(x, spans[i].value) ==> Inside(x, Hulls(spans).value))
  {
    if i > 0 { HullsHold(spans[1..], i - 1, x); }
  }

  lemma {:induction false} HullsEnds(spans: seq<Option<(real, real)>>) returns (i: nat, j: nat)
    requires spans != [] && Hulls(spans).Some?
    ensures i < |spans| && spans[i].Some? && spans[i].value.0 == Hulls(spans).value.0
    ensures j < |spans| && spans[j].Some? && spans[j].value.1 == Hulls(spans).value.1
  {
    i, j := 0, 0;
    if |spans| > 1 {
      var least, most := HullsEnds(spans[1..]);
      var head, rest := spans[0].value, Hulls(spans[1..]).value;
      if head.0 > rest.0 { i := least + 1; }
      if rest.1 > head.1 { j := most + 1; }
    }
  }

  lemma {:induction false} HullsGap(spans: seq<Option<(real, real)>>) returns (i: nat)
    requires spans != [] && Hulls(spans).None?
    ensures i < |spans| && spans[i].None?
  {
    i := 0;
    if spans[0].Some? {
      i := HullsGap(spans[1..]);
      i := i + 1;
    }
  }

  ghost predicate PositionIn(dim: Dim, chunks: seq<nat>, p: nat)
    requires dim.Valid()
  {
    p < Total(dim.sizes) && ChunkOf(dim.sizes, p) in chunks
  }

  lemma SpanHolds(dim: Dim, chunks: seq<nat>, i: nat, p: nat)
    requires dim.Valid() && Below(chunks, |dim.sizes|) && i < |chunks| && ChunkSpans(dim, chunks)[i].Some?
    requires p < Total(dim.sizes) && ChunkOf(dim.sizes, p) == chunks[i]
    ensures Inside(dim.coords[p], ChunkSpans(dim, chunks)[i].value)
  {
    IntervalHolds(dim, chunks[i], chunks[i] + 1, p);
  }

  lemma SpanEnds(dim: Dim, chunks: seq<nat>, i: nat) returns (p: nat, q: nat)
    requires dim.Valid() && Below(chunks, |dim.sizes|) && i < |chunks| && ChunkSpans(dim, chunks)[i].Some?
    ensures PositionIn(dim, chunks, p) && dim.coords[p] == Num(ChunkSpans(dim, chunks)[i].value.0)
    ensures PositionIn(dim, chunks, q) && dim.coords[q] == Num(ChunkSpans(dim, chunks)[i].value.1)
  {
    var c, span := chunks[i], ChunkSpans(dim, chunks)[i];
    assert span == Interval(dim, c, c + 1);
    p, q := IntervalEnds(dim, c, c + 1);
    assert ChunkOf(dim.sizes, p) == c && ChunkOf(dim.sizes, q) == c && c in chunks;
  }

  /** Every coordinate of a bucket lies in its interval. */
  lemma BucketIntervalHolds(dim: Dim, chunks: seq<nat>, p: nat)
    requires dim.Valid() && chunks != [] && Below(chunks, |dim.sizes|) && PositionIn(dim, chunks, p)
    requires BucketInterval(dim, chunks).Some?
    ensures dim.prunable && Inside(dim.coords[p], BucketInterval(dim, chunks).value)
  {
    var i :| 0 <= i < |chunks| && chunks[i] == ChunkOf(dim.sizes, p);
    HullsHold(ChunkSpans(dim, chunks), i, dim.coords[p]);
    SpanHolds(dim, chunks, i, p);
  }

  /** The ends of a bucket's interval are coordinates of the bucket. */
  lemma BucketEnds(dim: Dim, chunks: seq<nat>) returns (p: nat, q: nat)
    requires dim.Valid() && chunks != [] && Below(chunks, |dim.sizes|) && BucketInterval(dim, chunks).Some?
    ensures PositionIn(dim, chunks, p) && dim.coords[p] == Num(BucketInterval(dim, chunks).value.0)
    ensures PositionIn(dim, chunks, q) && dim.coords[q] == Num(BucketInterval(dim, chunks).value.1)
  {
    var i, j := HullsEnds(ChunkSpans(dim, chunks));
    var other: nat;
    p, other := SpanEnds(dim, chunks, i);
    other, q := SpanEnds(dim, chunks, j);
  }

  ghost predicate AllNumbers(dim: Dim, chunks: seq<nat>)
    requires dim.Valid()
  {
    forall p: nat :: PositionIn(dim, chunks, p) ==> dim.coords[p].Num?
  }

  /** A bucket has an interval exactly when its dimension is numeric and it has no NaN. */
  lemma BucketIntervalExists(dim: Dim, chunks: seq<nat>)
    requires dim.Valid() && chunks != [] && Below(chunks, |dim.sizes|)
    ensures BucketInterval(dim, chunks).Some? <==> dim.prunable && AllNumbers(dim, chunks)
  {
    if BucketInterval(dim, chunks).Some? {
      forall p: nat | PositionIn(dim, chunks, p) ensures dim.coords[p].Num? {
        BucketIntervalHolds(dim, chunks, p);
      }
    } else if dim.prunable {
      var i := HullsGap(ChunkSpans(dim, chunks));
      var p := IntervalGap(dim, chunks[i], chunks[i] + 1);
      assert PositionIn(dim, chunks, p);
    }
  }

  /** The conjunction over dimensions; nothing when a numeric one is poisoned or none is numeric. */
  function CellGuarantee(t: Table, cell: Cell): Option<Guarantee>
    requires Live(t, cell)
  {
    var g: Guarantee := seq(|cell|, d requires 0 <= d < |cell| => BucketInterval(t.dims[d], cell[d]));
    if (forall d :: 0 <= d < |g| ==> t.dims[d].prunable ==> g[d].Some?) && (exists d :: 0 <= d < |g| && g[d].Some?)
    then Some(g) else None
  }

  /** A cell has a guarantee exactly when some dimension is numeric and none of those has a NaN in the cell. */
  lemma CellGuaranteeExact(t: Table, cell: Cell)
    requires Live(t, cell)
    ensures CellGuarantee(t, cell).Some? <==>
              && (exists d :: 0 <= d < |cell| && t.dims[d].prunable)
              && (forall d :: 0 <= d < |cell| && t.dims[d].prunable ==> AllNumbers(t.dims[d], cell[d]))
  {
    var g: Guarantee := seq(|cell|, d requires 0 <= d < |cell| => BucketInterval(t.dims[d], cell[d]));
    forall d | 0 <= d < |g| ensures g[d].Some? <==> t.dims[d].prunable && AllNumbers(t.dims[d], cell[d]) {
      BucketIntervalExists(t.dims[d], cell[d]);
    }
  }

  lemma CellGuaranteeHolds(t: Table, cell: Cell, row: Row)
    requires Live(t, cell) && row in Rows(t, cell) && CellGuarantee(t, cell).Some?
    ensures IsRow(t, row) && Holds(t, CellGuarantee(t, cell).value, row) && Covered(t, row)
  {
    RowInCell(t, cell, row);
    var g := CellGuarantee(t, cell).value;
    forall d | 0 <= d < |g| && g[d].Some?
      ensures var x := t.dims[d].coords[row[d]]; x.Num? && g[d].value.0 <= x.v <= g[d].value.1
    {
      BucketIntervalHolds(t.dims[d], cell[d], row[d]);
    }
  }

  /** A complete guarantee covers the row: none of its numeric coordinates is NaN. */
  ghost predicate Covered(t: Table, row: Row)
    requires t.Valid() && IsRow(t, row)
  {
    forall d :: 0 <= d < |t.dims| && t.dims[d].prunable ==> t.dims[d].coords[row[d]].Num?
  }

  // ---------------------------------------------------------------------
  // Classification
  // ---------------------------------------------------------------------

  /** An isel-able block: a half-open extent on each grid dimension, and the whole outer extent. */
  type Block = seq<(nat, nat)>

  function BlockFor(t: Table, combo: seq<nat>): (b: Block)
    requires ChunkCombo(t, combo)
    ensures |b| == |t.dims| + 1
  {
    seq(|combo|, d requires 0 <= d < |combo| =>
      (Bound(t.dims[d].sizes, combo[d]), Bound(t.dims[d].sizes, combo[d] + 1))) + [(0, t.outer)]
  }

  ghost function BlockAxes(b: Block): (a: seq<set<nat>>)
    ensures |a| == |b|
  {
    seq(|b|, d requires 0 <= d < |b| => Range(b[d].0, b[d].1))
  }

  ghost function BlockRows(b: Block): set<Row> {
    Box(BlockAxes(b))
  }

  /** The single chunk of every dimension of a one-combination cell. */
  function OnlyCombo(cell: Cell): (combo: seq<nat>)
    requires AllSingle(cell)
    ensures |combo| == |cell|
  {
    seq(|cell|, d requires 0 <= d < |cell| => cell[d][0])
  }

  lemma BlockForRows(t: Table, cell: Cell)
    requires Live(t, cell) && AllSingle(cell)
    ensures ChunkCombo(t, OnlyCombo(cell))
    ensures BlockRows(BlockFor(t, OnlyCombo(cell))) == Rows(t, cell)
  {
    var b := BlockFor(t, OnlyCombo(cell));
    forall d | 0 <= d < |b| ensures BlockAxes(b)[d] == Axes(t, cell)[d] {
      if d < |cell| {
        assert cell[d] == [cell[d][0]];
        SingleChunk(t.dims[d].sizes, cell[d][0]);
      }
    }
    assert BlockAxes(b) == Axes(t, cell);
  }

  /** Rows counted without reading, and the blocks left to scan. */
  datatype Parts = Parts(proven: set<Row>, boundary: seq<Block>)

  datatype Decision = Pruned | Proven | Mixed

  function Decide(pos: Oracle, neg: Oracle, g: Option<Guarantee>): Decision {
    if g.None? then Mixed
    else if pos(g.value) == Unsatisfiable then Pruned
    else if neg(g.value) == Unsatisfiable then Proven
    else Mixed
  }

  function LevelBuckets(cell: Cell): (ks: seq<nat>)
    requires forall d :: 0 <= d < |cell| ==> cell[d] != []
    ensures Bucketing(cell, ks) && Prod(ks) <= LEVEL_BUDGET
  {
    ShrunkLevel(Lens(cell));
    Shrunk(Lens(cell))
  }

  /** The combinations of bucket numbers of a level, in the order of nested loops. */
  function LevelCombos(ks: seq<nat>): (combos: seq<seq<nat>>)
    ensures |combos| == Prod(ks)
  {
    seq(Prod(ks), i requires 0 <= i < Prod(ks) => Unravel(i, ks))
  }

  /** `combos` lists every combination of bucket numbers once. */
  ghost predicate Enumerates(combos: seq<seq<nat>>, ks: seq<nat>) {
    && (forall i :: 0 <= i < |combos| ==> InGrid(combos[i], ks))
    && Distinct(combos)
    && (forall c :: InGrid(c, ks) ==> c in combos)
  }

  lemma LevelCombosEnumerate(ks: seq<nat>)
    ensures Enumerates(LevelCombos(ks), ks)
  {
    var combos := LevelCombos(ks);
    forall i, j | 0 <= i < j < |combos| ensures combos[i] != combos[j] {
      RavelUnravel(i, ks);
      RavelUnravel(j, ks);
    }
    forall c | InGrid(c, ks) ensures c in combos {
      UnravelRavel(c, ks);
      assert combos[Ravel(c, ks)] == c;
    }
  }

  /** A level of the recursion: a live cell, its bucketing, and the combinations of buckets. */
  ghost predicate Level(t: Table, cell: Cell, ks: seq<nat>, combos: seq<seq<nat>>) {
    Live(t, cell) && Bucketing(cell, ks) && Enumerates(combos, ks)
  }

  lemma LevelHolds(t: Table, cell: Cell)
    requires Live(t, cell)
    ensures Level(t, cell, LevelBuckets(cell), LevelCombos(LevelBuckets(cell)))
    ensures |LevelCombos(LevelBuckets(cell))| <= 4096
  {
    LevelCombosEnumerate(LevelBuckets(cell));
  }

  /** The `i`-th bucket product of a level. */
  ghost function SubcellAt(t: Table, cell: Cell, ks: seq<nat>, combos: seq<seq<nat>>, i: nat): (sub: Cell)
    requires Level(t, cell, ks, combos) && i < |combos|
    ensures Live(t, sub)
  {
    SubcellLive(t, cell, ks, combos[i]);
    Subcell(cell, ks, combos[i])
  }

  /** A fragment on which the simplifier raises. */
  predicate Raised(t: Table, pos: Oracle, neg: Oracle, sub: Cell)
    requires Live(t, sub)
  {
    var g := CellGuarantee(t, sub);
    g.Some? && (pos(g.value) == Raises || neg(g.value) == Raises)
  }

  ghost predicate LevelRaises(t: Table, pos: Oracle, neg: Oracle, cell: Cell, ks: seq<nat>, combos: seq<seq<nat>>)
    requires Level(t, cell, ks, combos)
  {
    exists i :: 0 <= i < |combos| && Raised(t, pos, neg, SubcellAt(t, cell, ks, combos, i))
  }

  /** What becomes of a cell at a depth; nothing when the simplifier raises on the way. */
  ghost function Classify(t: Table, pos: Oracle, neg: Oracle, cell: Cell, depth: nat): Option<Parts>
    requires Live(t, cell) && depth <= MAX_DEPTH
    decreases MAX_DEPTH - depth, 2, 0
  {
    LevelHolds(t, cell);
    var ks := LevelBuckets(cell);
    ClassifyLevel(t, pos, neg, cell, ks, LevelCombos(ks), depth)
  }

  ghost function ClassifyLevel(
    t: Table, pos: Oracle, neg: Oracle, cell: Cell, ks: seq<nat>, combos: seq<seq<nat>>, depth: nat): Option<Parts>
    requires Level(t, cell, ks, combos) && depth <= MAX_DEPTH
    decreases MAX_DEPTH - depth, 1, 1
  {
    if LevelRaises(t, pos, neg, cell, ks, combos) then None
    else JoinAll(Ones(t, pos, neg, cell, ks, combos, depth))
  }

  /** What becomes of each bucket product of a level. */
  ghost function Ones(
    t: Table, pos: Oracle, neg: Oracle, cell: Cell, ks: seq<nat>, combos: seq<seq<nat>>,
    depth: nat): (ones: seq<Option<Parts>>)
    requires Level(t, cell, ks, combos) && depth <= MAX_DEPTH
    ensures |ones| == |combos|
    decreases MAX_DEPTH - depth, 1, 0
  {
    seq(|combos|, i requires 0 <= i < |combos| =>
      ClassifyOne(t, pos, neg, SubcellAt(t, cell, ks, combos, i), depth))
  }

  /** The parts of several bucket products together; nothing when one of them is nothing. */
  ghost function JoinAll(ones: seq<Option<Parts>>): Option<Parts> {
    if ones == [] then Some(Parts({}, []))
    else Join(JoinAll(ones[..|ones| - 1]), ones[|ones| - 1])
  }

  ghost function ClassifyOne(t: Table, pos: Oracle, neg: Oracle, sub: Cell, depth: nat): Option<Parts>
    requires Live(t, sub) && depth <= MAX_DEPTH
    decreases MAX_DEPTH - depth, 0, 0
  {
    match Decide(pos, neg, CellGuarantee(t, sub))
    case Pruned => Some(Parts({}, []))
    case Proven => Some(Parts(Rows(t, sub), []))
    case Mixed =>
      if AllSingle(sub) then Some(Parts({}, [BlockFor(t, OnlyCombo(sub))]))
      else if depth < MAX_DEPTH then Classify(t, pos, neg, sub, depth + 1)
      else
        CellCombos(t, sub);
        Some(Parts({}, BlocksFor(t, Product(sub))))
  }

  /** The guarantees of the bucket products of a level, where they have one. */
  ghost function Guarantees(
    t: Table, cell: Cell, ks: seq<nat>, combos: seq<seq<nat>>): (gs: seq<Option<Guarantee>>)
    requires Level(t, cell, ks, combos)
    ensures |gs| == |combos|
  {
    seq(|combos|, i requires 0 <= i < |combos| => CellGuarantee(t, SubcellAt(t, cell, ks, combos, i)))
  }

  /** The fragments of a level: the guarantees there are, in order. */
  function Decidable(gs: seq<Option<Guarantee>>): seq<Guarantee> {
    if gs == [] then []
    else
      var init, last := Decidable(gs[..|gs| - 1]), gs[|gs| - 1];
      if last.Some? then init + [last.value] else init
  }

  /** A guarantee is the fragment numbered by those before it. */
  lemma {:induction false} FragmentOf(gs: seq<Option<Guarantee>>, i: nat)
    requires i < |gs| && gs[i].Some?
    ensures var k := |Decidable(gs[..i])|; k < |Decidable(gs)| && Decidable(gs)[k] == gs[i].value
  {
    var init := gs[..|gs| - 1];
    if i < |gs| - 1 {
      FragmentOf(init, i);
      assert init[..i] == gs[..i];
    }
  }

  /** Every fragment is one of the guarantees. */
  lemma {:induction false} FragmentFrom(gs: seq<Option<Guarantee>>, k: nat)
    requires k < |Decidable(gs)|
    ensures Some(Decidable(gs)[k]) in gs
  {
    var init := gs[..|gs| - 1];
    if k < |Decidable(init)| { FragmentFrom(init, k); }
  }

  /** Two passes over the fragments, for the filter and for its negation, decide every guarantee. */
  lemma PassesDecide(pos: Oracle, neg: Oracle, gs: seq<Option<Guarantee>>, i: nat)
    requires i < |gs|
    requires Fragments(pos, Decidable(gs)).Some? && Fragments(neg, Decidable(gs)).Some?
    ensures var satisfiable, unstrict := Fragments(pos, Decidable(gs)).value, Fragments(neg, Decidable(gs)).value;
            var k := |Decidable(gs[..i])|;
            && (Decide(pos, neg, gs[i]) == Pruned <==> gs[i].Some? && k !in satisfiable)
            && (Decide(pos, neg, gs[i]) == Proven <==> gs[i].Some? && k in satisfiable && k !in unstrict)
  {
    if gs[i].Some? { FragmentOf(gs, i); }
  }

  /** And they raise exactly when the simplifier does on one of the products. */
  lemma PassesRaise(t: Table, pos: Oracle, neg: Oracle, cell: Cell, ks: seq<nat>, combos: seq<seq<nat>>)
    requires Level(t, cell, ks, combos)
    ensures var fragments := Decidable(Guarantees(t, cell, ks, combos));
            LevelRaises(t, pos, neg, cell, ks, combos) <==>
            Fragments(pos, fragments).None? || Fragments(neg, fragments).None?
  {
    var gs := Guarantees(t, cell, ks, combos);
    if i :| 0 <= i < |combos| && Raised(t, pos, neg, SubcellAt(t, cell, ks, combos, i)) {
      assert gs[i] == CellGuarantee(t, SubcellAt(t, cell, ks, combos, i));
      FragmentOf(gs, i);
    }
    forall k | 0 <= k < |Decidable(gs)| && (pos(Decidable(gs)[k]) == Raises || neg(Decidable(gs)[k]) == Raises)
      ensures LevelRaises(t, pos, neg, cell, ks, combos)
    {
      FragmentFrom(gs, k);
      var i :| 0 <= i < |gs| && gs[i] == Some(Decidable(gs)[k]);
      assert Raised(t, pos, neg, SubcellAt(t, cell, ks, combos, i));
    }
  }

  /** At depth six an undecided product is not split again: each of its combinations is a block. */
  lemma DepthBackstop(t: Table, pos: Oracle, neg: Oracle, sub: Cell)
    requires Live(t, sub) && Decide(pos, neg, CellGuarantee(t, sub)) == Mixed
    ensures ChunkCombos(t, Product(sub))
    ensures ClassifyOne(t, pos, neg, sub, 6) ==
            Some(Parts({}, if AllSingle(sub) then [BlockFor(t, OnlyCombo(sub))] else BlocksFor(t, Product(sub))))
  {
    CellCombos(t, sub);
  }

  ghost predicate ChunkCombos(t: Table, cs: seq<seq<nat>>) {
    forall i :: 0 <= i < |cs| ==> ChunkCombo(t, cs[i])
  }

  predicate ChunkCombo(t: Table, c: seq<nat>) {
    |c| == |t.dims| && forall d :: 0 <= d < |c| ==> c[d] < |t.dims[d].sizes|
  }

  /** Each chunk combination as its own block, in order. */
  function BlocksFor(t: Table, cs: seq<seq<nat>>): (bs: seq<Block>)
    requires ChunkCombos(t, cs)
    ensures |bs| == |cs|
  {
    if cs == [] then [] else BlocksFor(t, cs[..|cs| - 1]) + [BlockFor(t, cs[|cs| - 1])]
  }

  ghost function Join(a: Option<Parts>, b: Option<Parts>): Option<Parts> {
    if a.None? || b.None? then None
    else Some(Parts(a.value.proven + b.value.proven, a.value.boundary + b.value.boundary))
  }

  // ---------------------------------------------------------------------
  // Every row is accounted for once
  // ---------------------------------------------------------------------

  ghost function UnionOf(bs: seq<Block>): set<Row> {
    if bs == [] then {} else UnionOf(bs[..|bs| - 1]) + BlockRows(bs[|bs| - 1])
  }

  /** No row is in two of the blocks. */
  ghost predicate Apart(bs: seq<Block>) {
    bs == [] || (Apart(bs[..|bs| - 1]) && UnionOf(bs[..|bs| - 1]) !! BlockRows(bs[|bs| - 1]))
  }

  lemma {:induction false} UnionConcat(a: seq<Block>, b: seq<Block>)
    ensures UnionOf(a + b) == UnionOf(a) + UnionOf(b)
    ensures Apart(a) && Apart(b) && UnionOf(a) !! UnionOf(b) ==> Apart(a + b)
    decreases |b|
  {
    if b == [] {
      assert a + b == a;
    } else {
      UnionConcat(a, b[..|b| - 1]);
      assert (a + b)[..|a + b| - 1] == a + b[..|b| - 1];
    }
  }

  /**
   The parts account for the rows of a region: proven rows and scanned rows are apart, both inside
   the region; no proven row makes the filter false and every one is covered by a complete
   guarantee; and no row left over makes the filter true.
   */
  ghost predicate Accounts(t: Table, f: Filter, region: set<Row>, parts: Parts)
    requires t.Valid()
  {
    && parts.proven <= region && UnionOf(parts.boundary) <= region
    && parts.proven !! UnionOf(parts.boundary) && Apart(parts.boundary)
    && (forall r :: r in parts.proven ==> IsRow(t, r) && Covered(t, r) && f(r) != False)
    && (forall r :: r in region && f(r) == True ==> r in parts.proven + UnionOf(parts.boundary))
  }

  lemma AccountsJoin(t: Table, f: Filter, a: set<Row>, p: Parts, b: set<Row>, q: Parts, whole: set<Row>, both: Parts)
    requires t.Valid() && a !! b && whole == a + b
    requires Accounts(t, f, a, p) && Accounts(t, f, b, q)
    requires Join(Some(p), Some(q)) == Some(both)
    ensures Accounts(t, f, whole, both)
  {
    UnionConcat(p.boundary, q.boundary);
  }

  lemma UnionSingle(b: Block)
    ensures UnionOf([b]) == BlockRows(b) && Apart([b])
  {
    assert [b][..0] == [];
  }

  /** The rows of a cell in its first `i` bucket products. */
  ghost function RegionUpTo(t: Table, cell: Cell, ks: seq<nat>, combos: seq<seq<nat>>, i: nat): set<Row>
    requires Level(t, cell, ks, combos) && i <= |combos|
  {
    set r | r in Rows(t, cell) && ComboOf(t, cell, ks, r) in combos[..i]
  }

  lemma RegionStep(t: Table, cell: Cell, ks: seq<nat>, combos: seq<seq<nat>>, i: nat)
    requires Level(t, cell, ks, combos) && i < |combos|
    ensures var sub := Rows(t, SubcellAt(t, cell, ks, combos, i));
            && RegionUpTo(t, cell, ks, combos, i + 1) == RegionUpTo(t, cell, ks, combos, i) + sub
            && RegionUpTo(t, cell, ks, combos, i) !! sub
  {
    var sub := Rows(t, SubcellAt(t, cell, ks, combos, i));
    assert combos[..i + 1] == combos[..i] + [combos[i]];
    assert combos[i] !in combos[..i];
    forall r
      ensures r in RegionUpTo(t, cell, ks, combos, i + 1) <==> r in RegionUpTo(t, cell, ks, combos, i) + sub
      ensures !(r in RegionUpTo(t, cell, ks, combos, i) && r in sub)
    {
      RowInSubcell(t, cell, ks, combos[i], r);
    }
  }

  lemma RegionWhole(t: Table, cell: Cell, ks: seq<nat>, combos: seq<seq<nat>>)
    requires Level(t, cell, ks, combos)
    ensures RegionUpTo(t, cell, ks, combos, |combos|) == Rows(t, cell)
  {
    assert combos[..|combos|] == combos;
  }

  lemma AccountsNothing(t: Table, f: Filter)
    requires t.Valid()
    ensures Accounts(t, f, {}, Parts({}, []))
  {}

  /** Each bucket product of a level accounts for its own rows. */
  ghost predicate EachAccounts(
    t: Table, f: Filter, cell: Cell, ks: seq<nat>, combos: seq<seq<nat>>, ones: seq<Option<Parts>>)
    requires Level(t, cell, ks, combos)
  {
    && |ones| == |combos|
    && forall i :: 0 <= i < |ones| && ones[i].Some? ==>
         Accounts(t, f, Rows(t, SubcellAt(t, cell, ks, combos, i)), ones[i].value)
  }

  lemma JoinAllSnoc(ones: seq<Option<Parts>>, i: nat)
    requires i < |ones|
    ensures JoinAll(ones[..i + 1]) == Join(JoinAll(ones[..i]), ones[i])
  {
    assert ones[..i + 1][..i] == ones[..i];
  }

  /** Then the first `i` of them account for the rows of those products. */
  lemma {:induction false} UpToAccounts(
    t: Table, f: Filter, cell: Cell, ks: seq<nat>, combos: seq<seq<nat>>, ones: seq<Option<Parts>>, i: nat)
    requires Level(t, cell, ks, combos) && EachAccounts(t, f, cell, ks, combos, ones) && i <= |ones|
    ensures JoinAll(ones[..i]).Some? ==> Accounts(t, f, RegionUpTo(t, cell, ks, combos, i), JoinAll(ones[..i]).value)
  {
    if i == 0 {
      AccountsNothing(t, f);
      assert RegionUpTo(t, cell, ks, combos, 0) == {};
    } else {
      UpToAccounts(t, f, cell, ks, combos, ones, i - 1);
      JoinAllSnoc(ones, i - 1);
      if JoinAll(ones[..i]).Some? {
        RegionStep(t, cell, ks, combos, i - 1);
        AccountsJoin(t, f, RegionUpTo(t, cell, ks, combos, i - 1), JoinAll(ones[..i - 1]).value,
          Rows(t, SubcellAt(t, cell, ks, combos, i - 1)), ones[i - 1].value,
          RegionUpTo(t, cell, ks, combos, i), JoinAll(ones[..i]).value);
      }
    }
  }

  lemma {:induction false} ClassifyOneAccounts(t: Table, pos: Oracle, neg: Oracle, f: Filter, sub: Cell, depth: nat)
    requires Live(t, sub) && depth <= MAX_DEPTH
    requires Sound(pos, t, f, True) && Sound(neg, t, f, False)
    requires ClassifyOne(t, pos, neg, sub, depth).Some?
    ensures Accounts(t, f, Rows(t, sub), ClassifyOne(t, pos, neg, sub, depth).value)
    decreases MAX_DEPTH - depth, 0
  {
    match Decide(pos, neg, CellGuarantee(t, sub))
    case Pruned =>
      DecidedRows(t, pos, neg, f, sub);
    case Proven =>
      DecidedRows(t, pos, neg, f, sub);
    case Mixed =>
      if AllSingle(sub) {
        BlockForRows(t, sub);
        UnionSingle(BlockFor(t, OnlyCombo(sub)));
      } else if depth < MAX_DEPTH {
        ClassifyAccounts(t, pos, neg, f, sub, depth + 1);
      } else {
        CellBlocksCover(t, sub);
      }
  }

  /** What the simplifier's answers say about the rows of a bucket product. */
  lemma DecidedRows(t: Table, pos: Oracle, neg: Oracle, f: Filter, sub: Cell)
    requires Live(t, sub)
    requires Sound(pos, t, f, True) && Sound(neg, t, f, False)
    ensures Decide(pos, neg, CellGuarantee(t, sub)) == Pruned ==> forall r :: r in Rows(t, sub) ==> f(r) != True
    ensures Decide(pos, neg, CellGuarantee(t, sub)) == Proven ==>
              forall r :: r in Rows(t, sub) ==> IsRow(t, r) && Covered(t, r) && f(r) != False
  {
    forall r | r in Rows(t, sub) && CellGuarantee(t, sub).Some?
      ensures IsRow(t, r) && Holds(t, CellGuarantee(t, sub).value, r) && Covered(t, r)
    {
      CellGuaranteeHolds(t, sub, r);
    }
  }

  lemma {:induction false} ClassifyAccounts(t: Table, pos: Oracle, neg: Oracle, f: Filter, cell: Cell, depth: nat)
    requires Live(t, cell) && depth <= MAX_DEPTH
    requires Sound(pos, t, f, True) && Sound(neg, t, f, False)
    requires Classify(t, pos, neg, cell, depth).Some?
    ensures Accounts(t, f, Rows(t, cell), Classify(t, pos, neg, cell, depth).value)
    decreases MAX_DEPTH - depth, 2
  {
    LevelHolds(t, cell);
    LevelAccounts(t, pos, neg, f, cell, LevelBuckets(cell), LevelCombos(LevelBuckets(cell)), depth);
  }

  lemma {:induction false} LevelAccounts(
    t: Table, pos: Oracle, neg: Oracle, f: Filter, cell: Cell, ks: seq<nat>, combos: seq<seq<nat>>, depth: nat)
    requires Level(t, cell, ks, combos) && depth <= MAX_DEPTH
    requires Sound(pos, t, f, True) && Sound(neg, t, f, False)
    requires ClassifyLevel(t, pos, neg, cell, ks, combos, depth).Some?
    ensures Accounts(t, f, Rows(t, cell), ClassifyLevel(t, pos, neg, cell, ks, combos, depth).value)
    decreases MAX_DEPTH - depth, 1, 1
  {
    var ones := Ones(t, pos, neg, cell, ks, combos, depth);
    OnesAccount(t, pos, neg, f, cell, ks, combos, depth);
    UpToAccounts(t, f, cell, ks, combos, ones, |ones|);
    assert ones[..|ones|] == ones;
    RegionWhole(t, cell, ks, combos);
  }

  lemma {:induction false} OnesAccount(
    t: Table, pos: Oracle, neg: Oracle, f: Filter, cell: Cell, ks: seq<nat>, combos: seq<seq<nat>>, depth: nat)
    requires Level(t, cell, ks, combos) && depth <= MAX_DEPTH
    requires Sound(pos, t, f, True) && Sound(neg, t, f, False)
    ensures EachAccounts(t, f, cell, ks, combos, Ones(t, pos, neg, cell, ks, combos, depth))
    decreases MAX_DEPTH - depth, 1, 0
  {
    var ones := Ones(t, pos, neg, cell, ks, combos, depth);
    forall i | 0 <= i < |ones| && ones[i].Some?
      ensures Accounts(t, f, Rows(t, SubcellAt(t, cell, ks, combos, i)), ones[i].value)
    {
      ClassifyOneAccounts(t, pos, neg, f, SubcellAt(t, cell, ks, combos, i), depth);
    }
  }

  // ---------------------------------------------------------------------
  // One block per chunk combination
  // ---------------------------------------------------------------------

  /** The chunk combination a row belongs to. */
  ghost function ChunksOf(t: Table, row: Row): (c: seq<nat>)
    requires IsRow(t, row)
    ensures ChunkCombo(t, c)
  {
    seq(|t.dims|, d requires 0 <= d < |t.dims| => ChunkOf(t.dims[d].sizes, row[d]))
  }

  lemma RowInBlock(t: Table, c: seq<nat>, row: Row)
    requires t.Valid() && ChunkCombo(t, c)
    ensures row in BlockRows(BlockFor(t, c)) <==> IsRow(t, row) && ChunksOf(t, row) == c
  {
    var cell := seq(|c|, d requires 0 <= d < |c| => [c[d]]);
    forall d | 0 <= d < |cell| ensures ValidChunks(cell[d], |t.dims[d].sizes|) && cell[d] != [] && |cell[d]| == 1 {
      assert cell[d] == [c[d]];
    }
    assert OnlyCombo(cell) == c;
    BlockForRows(t, cell);
    RowInCell(t, cell, row);
    if IsRow(t, row) && (forall d :: 0 <= d < |cell| ==> ChunkOf(t.dims[d].sizes, row[d]) in cell[d]) {
      forall d | 0 <= d < |c| ensures ChunksOf(t, row)[d] == c[d] {
        assert ChunkOf(t.dims[d].sizes, row[d]) in cell[d];
      }
    }
  }

  /** The blocks of distinct combinations are apart, and hold exactly the rows of those combinations. */
  lemma {:induction false} BlocksForRows(t: Table, cs: seq<seq<nat>>)
    requires t.Valid() && ChunkCombos(t, cs)
    ensures forall row :: row in UnionOf(BlocksFor(t, cs)) <==> IsRow(t, row) && ChunksOf(t, row) in cs
    ensures Distinct(cs) ==> Apart(BlocksFor(t, cs))
  {
    if cs != [] {
      var init, last := cs[..|cs| - 1], cs[|cs| - 1];
      assert cs == init + [last];
      BlocksForRows(t, init);
      var bs := BlocksFor(t, init);
      UnionSingle(BlockFor(t, last));
      UnionConcat(bs, [BlockFor(t, last)]);
      forall row
        ensures row in BlockRows(BlockFor(t, last)) <==> IsRow(t, row) && ChunksOf(t, row) == last
      {
        RowInBlock(t, last, row);
      }
    }
  }

  lemma CellCombos(t: Table, cell: Cell)
    requires ValidCell(t, cell)
    ensures ChunkCombos(t, Product(cell)) && Distinct(Product(cell))
    ensures forall c :: c in Product(cell) <==> Chooses(c, cell)
  {
    ProductDistinct(cell);
    forall c ensures c in Product(cell) <==> Chooses(c, cell) {
      ProductMembers(cell, c);
    }
    forall i | 0 <= i < |Product(cell)| ensures ChunkCombo(t, Product(cell)[i]) {
      var c := Product(cell)[i];
      assert c in Product(cell);
      forall d | 0 <= d < |c| ensures c[d] < |t.dims[d].sizes| {
        assert c[d] in cell[d];
      }
    }
  }

  /** The blocks of all combinations of a cell: apart, and together exactly the rows of the cell. */
  lemma CellBlocksCover(t: Table, cell: Cell)
    requires t.Valid() && ValidCell(t, cell)
    ensures ChunkCombos(t, Product(cell))
    ensures UnionOf(BlocksFor(t, Product(cell))) == Rows(t, cell) && Apart(BlocksFor(t, Product(cell)))
  {
    CellCombos(t, cell);
    BlocksForRows(t, Product(cell));
    forall row ensures row in UnionOf(BlocksFor(t, Product(cell))) <==> row in Rows(t, cell) {
      RowInCell(t, cell, row);
      if IsRow(t, row) {
        assert forall d :: 0 <= d < |cell| ==> ChunksOf(t, row)[d] == ChunkOf(t.dims[d].sizes, row[d]);
      }
    }
  }
}
